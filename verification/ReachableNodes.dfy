/** The nodes that can run in a function's own frame, computed from the syntax and the ends of each
    block, and proved to be exactly the nodes some execution runs. */
module ReachableNodes {
  import opened PythonSyntax
  import opened PythonRuns
  import opened Outcomes

  // ---- computed from the syntax -------------------------------------------------------------

  function Nodes(s: Stmt, eager: bool): set<NodeId>
    decreases s, 1
  {
    {s.id} +
    match s
    case Simple(_, exprs) => EvaluableAll(exprs)
    case Return(_, exprs) => EvaluableAll(exprs)
    case Raise(_, exprs) => EvaluableAll(exprs)
    case Break(_) => {}
    case Continue(_) => {}
    case If(_, test, body, orelse) =>
      Evaluable(test)
      + (if MayBe(test, true) then BlockNodes(body, eager) else {})
      + (if MayBe(test, false) then BlockNodes(orelse, eager) else {})
    case While(_, test, body, orelse) =>
      Evaluable(test)
      + (if MayBe(test, true) then BlockNodes(body, eager) else {})
      + (if MayBe(test, false) then BlockNodes(orelse, eager) else {})
    case For(_, target, iter, body, orelse) =>
      Evaluable(target) + Evaluable(iter) + BlockNodes(body, eager) + BlockNodes(orelse, eager)
    case With(_, items, body) => EvaluableAll(items) + BlockNodes(body, eager)
    case Try(_, _, body, handlers, orelse, finalbody) =>
      BlockNodes(body, eager)
      + (if Raised in BlockEnds(body) then HandlersNodes(handlers, eager) else {})
      + (if Normal in BlockEnds(body) then BlockNodes(orelse, eager) else {})
      + (if BeforeFinally(s) != {} then BlockNodes(finalbody, eager) else {})
    case Match(_, subject, cases) => Evaluable(subject) + CasesNodes(cases, eager)
    case FunctionDef(_, decorators, defaults, result, annotations, _) =>
      EvaluableAll(decorators) + EvaluableAll(defaults)
      + (if eager then EvaluableAll(result) + EvaluableAll(annotations) else {})
    case ClassDef(_, bases, body, decorators) =>
      EvaluableAll(bases) + EvaluableAll(decorators) + BlockNodes(body, eager)
  }

  /** A statement runs only if every statement before it in its block can complete normally. */
  function BlockNodes(block: seq<Stmt>, eager: bool): set<NodeId>
    decreases block, 0
  {
    if block == [] then {}
    else
      Nodes(block[0], eager) + (if Normal in Ends(block[0]) then BlockNodes(block[1..], eager) else {})
  }

  function HandlersNodes(handlers: seq<Handler>, eager: bool): set<NodeId>
    decreases handlers, 0
  {
    if handlers == [] then {}
    else
      {handlers[0].id} + EvaluableAll(handlers[0].types) + BlockNodes(handlers[0].body, eager)
      + HandlersNodes(handlers[1..], eager)
  }

  function CasesNodes(cases: seq<Case>, eager: bool): set<NodeId>
    decreases cases, 0
  {
    if cases == [] then {}
    else
      {cases[0].id} + Evaluable(cases[0].pattern) + EvaluableAll(cases[0].guards)
      + BlockNodes(cases[0].body, eager) + CasesNodes(cases[1..], eager)
  }

  // ---- heads and bodies of clauses ----------------------------------------------------------

  lemma {:induction false} HandlersNodesHold(handlers: seq<Handler>, eager: bool)
    ensures HandlerHeads(handlers) <= HandlersNodes(handlers, eager)
    ensures forall i: nat | i < |handlers| ::
              {handlers[i].id} + BlockNodes(handlers[i].body, eager) <= HandlersNodes(handlers, eager)
  {
    if handlers == [] {
    } else {
      HandlersNodesHold(handlers[1..], eager);
      forall i: nat | i < |handlers|
        ensures {handlers[i].id} + BlockNodes(handlers[i].body, eager) <= HandlersNodes(handlers, eager)
      {
        if i > 0 { assert handlers[i] == handlers[1..][i - 1]; }
      }
    }
  }

  lemma {:induction false} CasesNodesHold(cases: seq<Case>, eager: bool)
    ensures CaseHeads(cases) <= CasesNodes(cases, eager)
    ensures forall i: nat | i < |cases| :: BlockNodes(cases[i].body, eager) <= CasesNodes(cases, eager)
  {
    if cases == [] {
    } else {
      CasesNodesHold(cases[1..], eager);
      forall i: nat | i < |cases|
        ensures BlockNodes(cases[i].body, eager) <= CasesNodes(cases, eager)
      {
        if i > 0 { assert cases[i] == cases[1..][i - 1]; }
      }
    }
  }

  lemma {:induction false} HandlersNodesSplit(handlers: seq<Handler>, eager: bool, n: NodeId) returns (i: nat)
    requires n in HandlersNodes(handlers, eager)
    ensures i < |handlers|
    ensures n in HandlerHeads(handlers) || n in BlockNodes(handlers[i].body, eager)
  {
    if n in HandlersNodes(handlers[1..], eager) {
      var j := HandlersNodesSplit(handlers[1..], eager, n);
      i := j + 1;
    } else {
      i := 0;
    }
  }

  lemma {:induction false} CasesNodesSplit(cases: seq<Case>, eager: bool, n: NodeId) returns (i: nat)
    requires n in CasesNodes(cases, eager)
    ensures i < |cases|
    ensures n in CaseHeads(cases) || n in BlockNodes(cases[i].body, eager)
  {
    if n in CasesNodes(cases[1..], eager) {
      var j := CasesNodesSplit(cases[1..], eager, n);
      i := j + 1;
    } else {
      i := 0;
    }
  }

  // ---- no execution runs anything else ------------------------------------------------------

  lemma {:induction false} BlockNodesSound(r: Run, block: seq<Stmt>, eager: bool)
    requires BlockRun(r, block, eager)
    ensures Ran(r) <= BlockNodes(block, eager)
    decreases r, 2
  {
    match r
    case Then(first, rest) =>
      EndsSound(first, block[0], eager);
      NodesSound(first, block[0], eager);
      BlockNodesSound(rest, block[1..], eager);
    case Leave(first) => NodesSound(first, block[0], eager);
    case _ =>
  }

  lemma {:induction false} NodesSound(r: Run, s: Stmt, eager: bool)
    requires StmtRun(r, s, eager)
    ensures Ran(r) <= Nodes(s, eager)
    decreases r, 3
  {
    match s
    case If(_, test, body, orelse) =>
      if r.Enter? {
        if MayBe(test, true) && BlockRun(r.sub, body, eager) {
          BlockNodesSound(r.sub, body, eager);
        } else {
          BlockNodesSound(r.sub, orelse, eager);
        }
      }
    case While(_, _, _, _) => WhileNodesSound(r, s, eager);
    case For(_, _, _, _, _) => ForNodesSound(r, s, eager);
    case With(_, _, body) => if r.Enter? { BlockNodesSound(r.sub, body, eager); }
    case Try(_, _, _, _, _, _) => TryNodesSound(r, s, eager);
    case Match(_, _, cases) =>
      CasesNodesHold(cases, eager);
      if r.Enter? {
        var i: nat :| i < |cases| && BlockRun(r.sub, cases[i].body, eager);
        BlockNodesSound(r.sub, cases[i].body, eager);
      }
    case ClassDef(_, _, body, _) => if r.Enter? { BlockNodesSound(r.sub, body, eager); }
    case _ =>
  }

  lemma {:induction false} WhileNodesSound(r: Run, s: Stmt, eager: bool)
    requires s.While? && WhileRun(r, s.id, s.test, s.body, s.orelse, eager)
    ensures Ran(r) <= Nodes(s, eager)
    decreases r, 2
  {
    match r
    case Turn(_, _, sub, next) => BlockNodesSound(sub, s.body, eager); WhileNodesSound(next, s, eager);
    case Exit(_, _, sub) => BlockNodesSound(sub, s.body, eager);
    case Exhaust(_, _, sub) => BlockNodesSound(sub, s.orelse, eager);
    case _ =>
  }

  lemma {:induction false} ForNodesSound(r: Run, s: Stmt, eager: bool)
    requires s.For? && ForRun(r, s.id, Evaluable(s.target) + Evaluable(s.iter), s.body, s.orelse, eager)
    ensures Ran(r) <= Nodes(s, eager)
    decreases r, 2
  {
    match r
    case Turn(_, _, sub, next) => BlockNodesSound(sub, s.body, eager); ForNodesSound(next, s, eager);
    case Exit(_, _, sub) => BlockNodesSound(sub, s.body, eager);
    case Exhaust(_, _, sub) => BlockNodesSound(sub, s.orelse, eager);
    case _ =>
  }

  lemma {:induction false} TryNodesSound(r: Run, s: Stmt, eager: bool)
    requires s.Try? && StmtRun(r, s, eager)
    ensures Ran(r) <= Nodes(s, eager)
    decreases r, 2
  {
    BlockNodesSound(r.sub, s.body, eager);
    BlockEndsSound(r.sub, s.body, eager);
    BeforeSound(r, s, eager);
    if Out(r.sub) == Normal { BlockNodesSound(r.after, s.orelse, eager); }
    if Out(r.sub) == Raised { HandlersNodesSound(r.after, s.star, s.handlers, eager); }
    if Before(r) != Halted { BlockNodesSound(r.final, s.finalbody, eager); }
  }

  lemma {:induction false} HandlersNodesSound(r: Run, star: bool, handlers: seq<Handler>, eager: bool)
    requires HandlersRun(r, star, handlers, eager)
    ensures Ran(r) <= HandlersNodes(handlers, eager)
    decreases r, 1
  {
    HandlersNodesHold(handlers, eager);
    if r.Handle? {
      BlockNodesSound(r.sub, handlers[r.index].body, eager);
      if !r.next.Done? { HandlersNodesSound(r.next, star, handlers, eager); }
    }
  }

  // ---- some execution runs each of them -----------------------------------------------------

  lemma {:induction false} BlockNodesRun(block: seq<Stmt>, eager: bool, n: NodeId) returns (r: Run)
    requires n in BlockNodes(block, eager)
    ensures BlockRun(r, block, eager) && n in Ran(r)
    decreases block, 0
  {
    if n in Nodes(block[0], eager) {
      var first := NodesRun(block[0], eager, n);
      r := if Out(first) == Normal then Then(first, Cut) else Leave(first);
    } else {
      var first := EndsRun(block[0], eager, Normal);
      var rest := BlockNodesRun(block[1..], eager, n);
      r := Then(first, rest);
    }
  }

  /** The nodes evaluated in the header of a statement that is not a `try`. */
  function Head(s: Stmt, eager: bool): set<NodeId> {
    match s
    case Simple(_, exprs) => EvaluableAll(exprs)
    case Return(_, exprs) => EvaluableAll(exprs)
    case Raise(_, exprs) => EvaluableAll(exprs)
    case If(_, test, _, _) => Evaluable(test)
    case While(_, test, _, _) => Evaluable(test)
    case For(_, target, iter, _, _) => Evaluable(target) + Evaluable(iter)
    case With(_, items, _) => EvaluableAll(items)
    case Match(_, subject, cases) => Evaluable(subject) + CaseHeads(cases)
    case FunctionDef(_, decorators, defaults, result, annotations, _) =>
      EvaluableAll(decorators) + EvaluableAll(defaults)
      + (if eager then EvaluableAll(result) + EvaluableAll(annotations) else {})
    case ClassDef(_, bases, _, decorators) => EvaluableAll(bases) + EvaluableAll(decorators)
    case _ => {}
  }

  /** A statement whose header is observed and nothing after it. */
  lemma HeadRuns(s: Stmt, eager: bool)
    requires !s.Try?
    ensures StmtRun(Step(s.id, Head(s, eager), Halted), s, eager)
  {
  }

  lemma {:induction false} NodesRun(s: Stmt, eager: bool, n: NodeId) returns (r: Run)
    requires n in Nodes(s, eager)
    ensures StmtRun(r, s, eager) && n in Ran(r)
    decreases s, 4
  {
    if s.Try? {
      r := TryNodesRun(s, eager, n);
    } else if n == s.id || n in Head(s, eager) {
      HeadRuns(s, eager);
      r := Step(s.id, Head(s, eager), Halted);
    } else {
      r := SubNodesRun(s, eager, n);
    }
  }

  /** A block below a header, entered once and observed up to `n`. */
  lemma {:induction false} SubNodesRun(s: Stmt, eager: bool, n: NodeId) returns (r: Run)
    requires !s.Try? && n in Nodes(s, eager) && n != s.id && n !in Head(s, eager)
    ensures StmtRun(r, s, eager) && n in Ran(r)
    decreases s, 2
  {
    match s
    case If(id, test, body, orelse) =>
      var branch := MayBe(test, true) && n in BlockNodes(body, eager);
      var sub := BlockNodesRun(if branch then body else orelse, eager, n);
      r := Enter(id, {}, sub, Out(sub));
    case While(_, _, _, _) => r := WhileNodesRun(s, eager, n);
    case For(_, _, _, _, _) => r := ForNodesRun(s, eager, n);
    case With(id, _, body) =>
      var sub := BlockNodesRun(body, eager, n);
      r := Enter(id, {}, sub, Out(sub));
    case Match(_, _, _) => r := MatchNodesRun(s, eager, n);
    case ClassDef(id, _, body, _) =>
      var sub := BlockNodesRun(body, eager, n);
      r := Enter(id, {}, sub, Out(sub));
  }

  lemma {:induction false} WhileNodesRun(s: Stmt, eager: bool, n: NodeId) returns (r: Run)
    requires s.While? && n in Nodes(s, eager) && n != s.id && n !in Head(s, eager)
    ensures StmtRun(r, s, eager) && n in Ran(r)
    decreases s, 1
  {
    if MayBe(s.test, true) && n in BlockNodes(s.body, eager) {
      var sub := BlockNodesRun(s.body, eager, n);
      r := OneTurn(s, sub);
    } else {
      var sub := BlockNodesRun(s.orelse, eager, n);
      r := Exhaust(s.id, {}, sub);
    }
  }

  lemma {:induction false} ForNodesRun(s: Stmt, eager: bool, n: NodeId) returns (r: Run)
    requires s.For? && n in Nodes(s, eager) && n != s.id && n !in Head(s, eager)
    ensures StmtRun(r, s, eager) && n in Ran(r)
    decreases s, 1
  {
    if n in BlockNodes(s.body, eager) {
      var sub := BlockNodesRun(s.body, eager, n);
      r := OneTurn(s, sub);
    } else {
      var sub := BlockNodesRun(s.orelse, eager, n);
      r := Exhaust(s.id, {}, sub);
    }
  }

  lemma {:induction false} MatchNodesRun(s: Stmt, eager: bool, n: NodeId) returns (r: Run)
    requires s.Match? && n in Nodes(s, eager) && n != s.id && n !in Head(s, eager)
    ensures StmtRun(r, s, eager) && n in Ran(r)
    decreases s, 1
  {
    var i := CasesNodesSplit(s.cases, eager, n);
    var sub := BlockNodesRun(s.cases[i].body, eager, n);
    r := Enter(s.id, {}, sub, Out(sub));
  }

  /** One turn of a loop, cut short afterwards when the loop would go on. */
  function OneTurn(s: Stmt, sub: Run): Run {
    if Out(sub) in {Normal, Continued} then Turn(s.id, {}, sub, Step(s.id, {}, Halted)) else Exit(s.id, {}, sub)
  }

  lemma {:induction false} HandlersNodesRun(s: Stmt, eager: bool, n: NodeId) returns (r: Run)
    requires s.Try? && n in HandlersNodes(s.handlers, eager)
    ensures !r.Done? && HandlersRun(r, s.star, s.handlers, eager) && n in Ran(r)
    decreases s, 1
  {
    var i := HandlersNodesSplit(s.handlers, eager, n);
    if n in HandlerHeads(s.handlers) {
      r := Step(n, {}, Raised);
    } else {
      var sub := BlockNodesRun(s.handlers[i].body, eager, n);
      r := Handle(s.handlers[i].id, {}, i, sub, Done);
    }
  }

  /** The body of a `try` and what follows it, observed up to `n`. */
  lemma {:induction false} AttemptNodesRun(s: Stmt, eager: bool, n: NodeId) returns (sub: Run, after: Run)
    requires s.Try?
    requires || n in BlockNodes(s.body, eager)
             || (Raised in BlockEnds(s.body) && n in HandlersNodes(s.handlers, eager))
             || (Normal in BlockEnds(s.body) && n in BlockNodes(s.orelse, eager))
    ensures BlockRun(sub, s.body, eager)
    ensures AfterTry(after, Out(sub), s.star, s.handlers, s.orelse, eager)
    ensures n in Ran(sub) + Ran(after)
    decreases s, 2
  {
    if n in BlockNodes(s.body, eager) {
      sub := BlockNodesRun(s.body, eager, n);
      after := if Out(sub) == Normal then Cut else Done;
    } else if Normal in BlockEnds(s.body) && n in BlockNodes(s.orelse, eager) {
      sub := BlockEndsRun(s.body, eager, Normal);
      after := BlockNodesRun(s.orelse, eager, n);
    } else {
      sub := BlockEndsRun(s.body, eager, Raised);
      after := HandlersNodesRun(s, eager, n);
    }
  }

  /** What can run in a `try` can run in one of its parts, where that part can be entered. */
  lemma TryNodeWhere(s: Stmt, eager: bool, n: NodeId)
    requires s.Try? && n in Nodes(s, eager)
    ensures || n == s.id || n in BlockNodes(s.body, eager)
            || (Raised in BlockEnds(s.body) && n in HandlersNodes(s.handlers, eager))
            || (Normal in BlockEnds(s.body) && n in BlockNodes(s.orelse, eager))
            || (BeforeFinally(s) != {} && n in BlockNodes(s.finalbody, eager))
  {
  }

  /** The parts of an execution of a `try`, put together. */
  lemma AttemptRuns(s: Stmt, sub: Run, after: Run, final: Run, eager: bool)
    requires s.Try? && BlockRun(sub, s.body, eager)
    requires AfterTry(after, Out(sub), s.star, s.handlers, s.orelse, eager)
    requires final == Cut || ((if after.Done? then Out(sub) else Out(after)) != Halted
                              && BlockRun(final, s.finalbody, eager))
    ensures StmtRun(Attempt(s.id, sub, after, final), s, eager)
    ensures Ran(Attempt(s.id, sub, after, final)) == {s.id} + Ran(sub) + Ran(after) + Ran(final)
  {
  }

  lemma {:induction false} FinalNodesRun(s: Stmt, eager: bool, n: NodeId) returns (r: Run)
    requires s.Try? && BeforeFinally(s) != {} && n in BlockNodes(s.finalbody, eager)
    ensures StmtRun(r, s, eager) && n in Ran(r)
    decreases s, 2
  {
    var o :| o in BeforeFinally(s);
    NeverHaltedBefore(s);
    var sub, after := BeforeRun(s, eager, o);
    var final := BlockNodesRun(s.finalbody, eager, n);
    AttemptRuns(s, sub, after, final, eager);
    r := Attempt(s.id, sub, after, final);
  }

  lemma {:induction false} TryNodesRun(s: Stmt, eager: bool, n: NodeId) returns (r: Run)
    requires s.Try? && n in Nodes(s, eager)
    ensures StmtRun(r, s, eager) && n in Ran(r)
    decreases s, 3
  {
    TryNodeWhere(s, eager, n);
    if n == s.id {
      AttemptRuns(s, Cut, Done, Cut, eager);
      r := Attempt(s.id, Cut, Done, Cut);
    } else if BeforeFinally(s) != {} && n in BlockNodes(s.finalbody, eager) {
      r := FinalNodesRun(s, eager, n);
    } else {
      var sub, after := AttemptNodesRun(s, eager, n);
      AttemptRuns(s, sub, after, Cut, eager);
      r := Attempt(s.id, sub, after, Cut);
    }
  }

  // ---- exactly ------------------------------------------------------------------------------

  /** Some execution runs `n` in the function's own frame. */
  ghost predicate Reachable(body: seq<Stmt>, eager: bool, n: NodeId) {
    exists r :: BlockRun(r, body, eager) && n in Ran(r)
  }

  /** For every body, the computed nodes are the reachable ones. */
  lemma NodesExact(body: seq<Stmt>, eager: bool, n: NodeId)
    ensures n in BlockNodes(body, eager) <==> Reachable(body, eager, n)
  {
    if n in BlockNodes(body, eager) { var r := BlockNodesRun(body, eager, n); }
    if r :| BlockRun(r, body, eager) && n in Ran(r) { BlockNodesSound(r, body, eager); }
  }
}

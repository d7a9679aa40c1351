/** On code without loops, `with`, `try`, `match` and classes the walk is exact: conditionals nested to any
    depth, every way a block can end, and all of what follows. */
module StraightCode {
  import opened PythonSyntax
  import opened PythonRuns
  import opened ScopeWalk
  import opened Outcomes
  import opened ReachableNodes
  import opened DeadCode

  /** Simple statements, the four terminators, conditionals of such, and nested functions whose result
      annotation, if any, is evaluated with the definition. */
  predicate Straight(s: Stmt, eager: bool)
    decreases s, 1
  {
    match s
    case If(_, _, body, orelse) => StraightBlock(body, eager) && StraightBlock(orelse, eager)
    case FunctionDef(_, _, _, result, _, _) => eager || result == []
    case _ => s.Simple? || s.Return? || s.Raise? || s.Break? || s.Continue?
  }

  predicate StraightBlock(block: seq<Stmt>, eager: bool)
    decreases block, 0
  {
    block == [] || (Straight(block[0], eager) && StraightBlock(block[1..], eager))
  }

  /** The walk stops after a statement exactly when the statement never completes normally. */
  lemma {:induction false} StopsExactly(s: Stmt, eager: bool)
    requires Straight(s, eager)
    ensures StopsAfter(s) <==> Normal !in Ends(s)
    decreases s, 1
  {
    match s
    case If(_, test, body, orelse) =>
      TerminatesExactly(body, eager);
      TerminatesExactly(orelse, eager);
    case _ =>
  }

  /** `block_terminates` is right about every straight block. */
  lemma {:induction false} TerminatesExactly(block: seq<Stmt>, eager: bool)
    requires StraightBlock(block, eager)
    ensures BlockTerminates(block) <==> Normal !in BlockEnds(block)
    decreases block, 0
  {
    if block == [] {
    } else {
      StopsExactly(block[0], eager);
      TerminatesExactly(block[1..], eager);
    }
  }

  lemma {:induction false} StraightIsLive(block: seq<Stmt>, eager: bool)
    requires StraightBlock(block, eager)
    ensures LiveBlock(block, eager)
    decreases block
  {
    if block == [] {
    } else {
      var s := block[0];
      StopsExactly(s, eager);
      StraightIsLive(block[1..], eager);
      if s.If? {
        StraightIsLive(s.body, eager);
        StraightIsLive(s.orelse, eager);
      }
    }
  }

  /** Of a straight body the walk yields exactly what some run reaches, parameter annotations of nested
      functions aside. */
  lemma StraightIsExact(body: seq<Stmt>, eager: bool, n: NodeId)
    requires StraightBlock(body, eager)
    ensures (n in FunctionScopeNodes(body) || (eager && n in OmittedBlock(body))) <==> Reachable(body, eager, n)
  {
    StraightIsLive(body, eager);
    YieldedExactlyReachable(body, eager, n);
  }
}

/** The part of Python's abstract syntax the execution-authority gate walks.  Every node carries an
    identity, so two textually equal statements at different places stay different nodes. */
module PythonSyntax {

  type NodeId = nat

  /** `BoolConst` is an `ast.Constant` holding `True` or `False`; `Compound` is every other
      expression node except `lambda`, with its child nodes in field order. */
  datatype Expr =
    | BoolConst(id: NodeId, value: bool)
    | Lambda(id: NodeId, defaults: seq<Expr>, body: Expr)
    | Compound(id: NodeId, children: seq<Expr>)

  /** `Simple` covers the statements without a block that do not transfer control (assignments,
      expression statements, `assert`, `pass`, imports, ...).  The asynchronous forms share the
      constructors of the ordinary ones. */
  datatype Stmt =
    | Simple(id: NodeId, exprs: seq<Expr>)
    | Return(id: NodeId, exprs: seq<Expr>)
    | Raise(id: NodeId, exprs: seq<Expr>)
    | Break(id: NodeId)
    | Continue(id: NodeId)
    | If(id: NodeId, test: Expr, body: seq<Stmt>, orelse: seq<Stmt>)
    | While(id: NodeId, test: Expr, body: seq<Stmt>, orelse: seq<Stmt>)
    | For(id: NodeId, target: Expr, iter: Expr, body: seq<Stmt>, orelse: seq<Stmt>)
    | With(id: NodeId, items: seq<Expr>, body: seq<Stmt>)
    | Try(id: NodeId, star: bool, body: seq<Stmt>, handlers: seq<Handler>, orelse: seq<Stmt>, finalbody: seq<Stmt>)
    | Match(id: NodeId, subject: Expr, cases: seq<Case>)
    | FunctionDef(id: NodeId, decorators: seq<Expr>, defaults: seq<Expr>, result: seq<Expr>,
                  annotations: seq<Expr>, body: seq<Stmt>)
    | ClassDef(id: NodeId, bases: seq<Expr>, body: seq<Stmt>, decorators: seq<Expr>)

  datatype Handler = Handler(id: NodeId, types: seq<Expr>, body: seq<Stmt>)

  datatype Case = Case(id: NodeId, pattern: Expr, guards: seq<Expr>, body: seq<Stmt>)

  /** The nodes that can be evaluated when `e` is: everything but the bodies of lambdas. */
  function Evaluable(e: Expr): set<NodeId> {
    match e
    case BoolConst(id, _) => {id}
    case Lambda(id, defaults, _) => {id} + EvaluableAll(defaults)
    case Compound(id, children) => {id} + EvaluableAll(children)
  }

  function EvaluableAll(es: seq<Expr>): set<NodeId> {
    if es == [] then {} else Evaluable(es[0]) + EvaluableAll(es[1..])
  }
}

/** The ways a statement or a block can end, computed from the syntax, and proved to be exactly the ways
    some execution of it ends. */
module Outcomes {
  import opened PythonSyntax
  import opened PythonRuns

  // ---- computed from the syntax -------------------------------------------------------------

  /** What a loop makes of the ends of its body: a `break` completes the loop, a turn that ends normally
      or with `continue` goes on. */
  function LoopEnds(body: set<Outcome>): set<Outcome> {
    (body - {Normal, Continued, Broke}) + (if Broke in body then {Normal} else {})
  }

  function Ends(s: Stmt): set<Outcome>
    decreases s, 1
  {
    match s
    case Simple(_, _) => {Normal, Raised}
    case Return(_, _) => {Returned, Raised}
    case Raise(_, _) => {Raised}
    case Break(_) => {Broke}
    case Continue(_) => {Continued}
    case If(_, test, body, orelse) =>
      if test.BoolConst? then BlockEnds(if test.value then body else orelse)
      else {Raised} + BlockEnds(body) + BlockEnds(orelse)
    case While(_, test, body, orelse) =>
      if test.BoolConst? then if test.value then LoopEnds(BlockEnds(body)) else BlockEnds(orelse)
      else {Raised} + LoopEnds(BlockEnds(body)) + BlockEnds(orelse)
    case For(_, _, _, body, orelse) => {Raised} + LoopEnds(BlockEnds(body)) + BlockEnds(orelse)
    case With(_, _, body) => {Raised} + BlockEnds(body) + (if Raised in BlockEnds(body) then {Normal} else {})
    case Try(_, _, _, _, _, finalbody) => FinallyEnds(BeforeFinally(s), BlockEnds(finalbody))
    case Match(_, _, cases) => {Normal, Raised} + CasesEnds(cases)
    case FunctionDef(_, _, _, _, _, _) => {Normal, Raised}
    case ClassDef(_, _, body, _) => {Raised} + BlockEnds(body)
  }

  function BlockEnds(block: seq<Stmt>): set<Outcome>
    decreases block, 0
  {
    if block == [] then {Normal}
    else (Ends(block[0]) - {Normal}) + (if Normal in Ends(block[0]) then BlockEnds(block[1..]) else {})
  }

  function CasesEnds(cases: seq<Case>): set<Outcome>
    decreases cases, 0
  {
    if cases == [] then {} else BlockEnds(cases[0].body) + CasesEnds(cases[1..])
  }

  function BodiesEnds(handlers: seq<Handler>): set<Outcome>
    decreases handlers, 0
  {
    if handlers == [] then {} else BlockEnds(handlers[0].body) + BodiesEnds(handlers[1..])
  }

  /** An exception among the handlers: uncaught or raised again by a clause's type expression, swallowed
      by `except*`, or the end of a clause's body. */
  function HandlersEnds(star: bool, handlers: seq<Handler>): set<Outcome>
    decreases handlers, 1
  {
    {Raised} + BodiesEnds(handlers) + (if star && handlers != [] then {Normal} else {})
  }

  /** How a `try` stands when its final block starts. */
  function BeforeFinally(s: Stmt): set<Outcome>
    requires s.Try?
    decreases s, 0
  {
    var ends := BlockEnds(s.body);
    (ends - {Normal, Raised})
    + (if Normal in ends then BlockEnds(s.orelse) else {})
    + (if Raised in ends then HandlersEnds(s.star, s.handlers) else {})
  }

  /** A final block that ends abruptly overrides what came before it. */
  function FinallyEnds(before: set<Outcome>, final: set<Outcome>): set<Outcome> {
    if before == {} then {} else (final - {Normal}) + (if Normal in final then before else {})
  }

  // ---- no execution ends otherwise ----------------------------------------------------------

  lemma {:induction false} BlockEndsSound(r: Run, block: seq<Stmt>, eager: bool)
    requires BlockRun(r, block, eager)
    ensures Out(r) == Halted || Out(r) in BlockEnds(block)
    decreases r, 2
  {
    match r
    case Then(first, rest) =>
      EndsSound(first, block[0], eager);
      BlockEndsSound(rest, block[1..], eager);
    case Leave(first) => EndsSound(first, block[0], eager);
    case _ =>
  }

  lemma {:induction false} EndsSound(r: Run, s: Stmt, eager: bool)
    requires StmtRun(r, s, eager)
    ensures Out(r) == Halted || Out(r) in Ends(s)
    decreases r, 3
  {
    match s
    case If(_, test, body, orelse) =>
      if r.Enter? {
        if MayBe(test, true) && BlockRun(r.sub, body, eager) {
          BlockEndsSound(r.sub, body, eager);
        } else {
          BlockEndsSound(r.sub, orelse, eager);
        }
      }
    case While(_, _, _, _) => WhileEndsSound(r, s, eager);
    case For(_, _, _, _, _) => ForEndsSound(r, s, eager);
    case With(_, _, body) => if r.Enter? { BlockEndsSound(r.sub, body, eager); }
    case Try(_, _, _, _, _, _) => TryEndsSound(r, s, eager);
    case Match(_, _, cases) =>
      if r.Enter? {
        var i: nat :| i < |cases| && BlockRun(r.sub, cases[i].body, eager);
        BlockEndsSound(r.sub, cases[i].body, eager);
        CaseEndsIn(cases, i);
      }
    case ClassDef(_, _, body, _) => if r.Enter? { BlockEndsSound(r.sub, body, eager); }
    case _ =>
  }

  lemma {:induction false} WhileEndsSound(r: Run, s: Stmt, eager: bool)
    requires s.While? && WhileRun(r, s.id, s.test, s.body, s.orelse, eager)
    ensures Out(r) == Halted || Out(r) in Ends(s)
    decreases r, 2
  {
    match r
    case Turn(_, _, _, next) => WhileEndsSound(next, s, eager);
    case Exit(_, _, sub) => BlockEndsSound(sub, s.body, eager);
    case Exhaust(_, _, sub) => BlockEndsSound(sub, s.orelse, eager);
    case _ =>
  }

  lemma {:induction false} ForEndsSound(r: Run, s: Stmt, eager: bool)
    requires s.For? && ForRun(r, s.id, Evaluable(s.target) + Evaluable(s.iter), s.body, s.orelse, eager)
    ensures Out(r) == Halted || Out(r) in Ends(s)
    decreases r, 2
  {
    match r
    case Turn(_, _, _, next) => ForEndsSound(next, s, eager);
    case Exit(_, _, sub) => BlockEndsSound(sub, s.body, eager);
    case Exhaust(_, _, sub) => BlockEndsSound(sub, s.orelse, eager);
    case _ =>
  }

  /** The end of a `try` before its final block. */
  function Before(r: Run): Outcome
    requires r.Attempt?
  {
    if r.after.Done? then Out(r.sub) else Out(r.after)
  }

  lemma {:induction false} BeforeSound(r: Run, s: Stmt, eager: bool)
    requires s.Try? && StmtRun(r, s, eager)
    ensures Before(r) == Halted || Before(r) in BeforeFinally(s)
    decreases r, 1
  {
    BlockEndsSound(r.sub, s.body, eager);
    if Out(r.sub) == Normal {
      BlockEndsSound(r.after, s.orelse, eager);
    } else if Out(r.sub) == Raised {
      HandlersEndsSound(r.after, s.star, s.handlers, eager);
    }
  }

  lemma {:induction false} TryEndsSound(r: Run, s: Stmt, eager: bool)
    requires s.Try? && StmtRun(r, s, eager)
    ensures Out(r) == Halted || Out(r) in Ends(s)
    decreases r, 2
  {
    BeforeSound(r, s, eager);
    if Before(r) != Halted { BlockEndsSound(r.final, s.finalbody, eager); }
  }

  lemma {:induction false} HandlersEndsSound(r: Run, star: bool, handlers: seq<Handler>, eager: bool)
    requires HandlersRun(r, star, handlers, eager)
    ensures r.Done? || Out(r) == Halted || Out(r) in HandlersEnds(star, handlers)
    decreases r, 1
  {
    if r.Handle? {
      BlockEndsSound(r.sub, handlers[r.index].body, eager);
      BodyEndsIn(handlers, r.index);
      if !r.next.Done? { HandlersEndsSound(r.next, star, handlers, eager); }
    }
  }

  lemma {:induction false} CaseEndsIn(cases: seq<Case>, i: nat)
    requires i < |cases|
    ensures BlockEnds(cases[i].body) <= CasesEnds(cases)
  {
    if i == 0 {
    } else {
      CaseEndsIn(cases[1..], i - 1);
    }
  }

  lemma {:induction false} BodyEndsIn(handlers: seq<Handler>, i: nat)
    requires i < |handlers|
    ensures BlockEnds(handlers[i].body) <= BodiesEnds(handlers)
  {
    if i == 0 {
    } else {
      BodyEndsIn(handlers[1..], i - 1);
    }
  }

  // ---- some execution ends so ---------------------------------------------------------------

  lemma {:induction false} BlockEndsRun(block: seq<Stmt>, eager: bool, o: Outcome) returns (r: Run)
    requires o in BlockEnds(block)
    ensures BlockRun(r, block, eager) && Out(r) == o
    decreases block, 0
  {
    if block == [] {
      r := Done;
    } else if o != Normal && o in Ends(block[0]) {
      var first := EndsRun(block[0], eager, o);
      r := Leave(first);
    } else {
      var first := EndsRun(block[0], eager, Normal);
      var rest := BlockEndsRun(block[1..], eager, o);
      r := Then(first, rest);
    }
  }

  lemma {:induction false} EndsRun(s: Stmt, eager: bool, o: Outcome) returns (r: Run)
    requires o in Ends(s)
    ensures StmtRun(r, s, eager) && Out(r) == o
    decreases s, 3
  {
    match s
    case If(_, _, _, _) => r := IfEndsRun(s, eager, o);
    case While(_, _, _, _) => r := WhileEndsRun(s, eager, o);
    case For(_, _, _, _, _) => r := ForEndsRun(s, eager, o);
    case With(_, _, _) => r := WithEndsRun(s, eager, o);
    case Try(_, _, _, _, _, _) => r := TryEndsRun(s, eager, o);
    case Match(_, _, _) => r := MatchEndsRun(s, eager, o);
    case ClassDef(_, _, _, _) => r := ClassEndsRun(s, eager, o);
    case _ => r := Step(s.id, {}, o);
  }

  lemma {:induction false} MatchEndsRun(s: Stmt, eager: bool, o: Outcome) returns (r: Run)
    requires s.Match? && o in Ends(s)
    ensures StmtRun(r, s, eager) && Out(r) == o
    decreases s, 1
  {
    if o in {Normal, Raised} {
      r := Step(s.id, {}, o);
    } else {
      var i := CaseEndsFrom(s.cases, o);
      var sub := BlockEndsRun(s.cases[i].body, eager, o);
      r := Enter(s.id, {}, sub, o);
    }
  }

  lemma {:induction false} ClassEndsRun(s: Stmt, eager: bool, o: Outcome) returns (r: Run)
    requires s.ClassDef? && o in Ends(s)
    ensures StmtRun(r, s, eager) && Out(r) == o
    decreases s, 1
  {
    if o == Raised {
      r := Step(s.id, {}, o);
    } else {
      var sub := BlockEndsRun(s.body, eager, o);
      r := Enter(s.id, {}, sub, o);
    }
  }

  lemma {:induction false} IfEndsRun(s: Stmt, eager: bool, o: Outcome) returns (r: Run)
    requires s.If? && o in Ends(s)
    ensures StmtRun(r, s, eager) && Out(r) == o
    decreases s, 1
  {
    if !s.test.BoolConst? && o == Raised {
      r := Step(s.id, {}, Raised);
    } else {
      var branch := if s.test.BoolConst? then s.test.value else o in BlockEnds(s.body);
      var sub := BlockEndsRun(if branch then s.body else s.orelse, eager, o);
      r := Enter(s.id, {}, sub, o);
    }
  }

  /** The end of a loop body that makes the loop end so. */
  function BodyEnd(o: Outcome): Outcome { if o == Normal then Broke else o }

  lemma {:induction false} WhileEndsRun(s: Stmt, eager: bool, o: Outcome) returns (r: Run)
    requires s.While? && o in Ends(s)
    ensures StmtRun(r, s, eager) && Out(r) == o
    decreases s, 1
  {
    if !s.test.BoolConst? && o == Raised {
      r := Step(s.id, {}, Raised);
    } else if MayBe(s.test, true) && o in LoopEnds(BlockEnds(s.body)) {
      var sub := BlockEndsRun(s.body, eager, BodyEnd(o));
      r := Exit(s.id, {}, sub);
    } else {
      var sub := BlockEndsRun(s.orelse, eager, o);
      r := Exhaust(s.id, {}, sub);
    }
  }

  lemma {:induction false} ForEndsRun(s: Stmt, eager: bool, o: Outcome) returns (r: Run)
    requires s.For? && o in Ends(s)
    ensures StmtRun(r, s, eager) && Out(r) == o
    decreases s, 1
  {
    if o == Raised {
      r := Step(s.id, {}, Raised);
    } else if o in LoopEnds(BlockEnds(s.body)) {
      var sub := BlockEndsRun(s.body, eager, BodyEnd(o));
      r := Exit(s.id, {}, sub);
    } else {
      var sub := BlockEndsRun(s.orelse, eager, o);
      r := Exhaust(s.id, {}, sub);
    }
  }

  lemma {:induction false} WithEndsRun(s: Stmt, eager: bool, o: Outcome) returns (r: Run)
    requires s.With? && o in Ends(s)
    ensures StmtRun(r, s, eager) && Out(r) == o
    decreases s, 1
  {
    if o == Raised {
      r := Step(s.id, {}, Raised);
    } else {
      var sub := BlockEndsRun(s.body, eager, if o in BlockEnds(s.body) then o else Raised);
      r := Enter(s.id, {}, sub, o);
    }
  }

  lemma {:induction false} CaseEndsFrom(cases: seq<Case>, o: Outcome) returns (i: nat)
    requires o in CasesEnds(cases)
    ensures i < |cases| && o in BlockEnds(cases[i].body)
  {
    if o in BlockEnds(cases[0].body) {
      i := 0;
    } else {
      var j := CaseEndsFrom(cases[1..], o);
      i := j + 1;
    }
  }

  lemma {:induction false} BodyEndsFrom(handlers: seq<Handler>, o: Outcome) returns (i: nat)
    requires o in BodiesEnds(handlers)
    ensures i < |handlers| && o in BlockEnds(handlers[i].body)
  {
    if o in BlockEnds(handlers[0].body) {
      i := 0;
    } else {
      var j := BodyEndsFrom(handlers[1..], o);
      i := j + 1;
    }
  }

  /** The handlers, ending so; nothing but the exception itself when they do not take it. */
  lemma {:induction false} HandlersEndsRun(s: Stmt, eager: bool, o: Outcome) returns (r: Run)
    requires s.Try? && o in HandlersEnds(s.star, s.handlers)
    ensures HandlersRun(r, s.star, s.handlers, eager) && (if r.Done? then Raised else Out(r)) == o
    decreases s, 0
  {
    if o == Raised {
      r := Done;
    } else if o in BodiesEnds(s.handlers) {
      var i := BodyEndsFrom(s.handlers, o);
      var sub := BlockEndsRun(s.handlers[i].body, eager, o);
      r := Handle(s.handlers[i].id, {}, i, sub, Done);
    } else {
      r := Step(s.handlers[0].id, {}, Normal);
    }
  }

  /** The body of a `try` and what follows it, up to the final block. */
  lemma {:induction false} BeforeRun(s: Stmt, eager: bool, o: Outcome) returns (sub: Run, after: Run)
    requires s.Try? && o in BeforeFinally(s)
    ensures BlockRun(sub, s.body, eager) && Out(sub) != Halted
    ensures AfterTry(after, Out(sub), s.star, s.handlers, s.orelse, eager)
    ensures (if after.Done? then Out(sub) else Out(after)) == o
    decreases s, 1
  {
    NeverHaltedBlock(s.body);
    var ends := BlockEnds(s.body);
    if Normal in ends && o in BlockEnds(s.orelse) {
      sub := BlockEndsRun(s.body, eager, Normal);
      after := BlockEndsRun(s.orelse, eager, o);
    } else if Raised in ends && o in HandlersEnds(s.star, s.handlers) {
      sub := BlockEndsRun(s.body, eager, Raised);
      after := HandlersEndsRun(s, eager, o);
    } else {
      sub := BlockEndsRun(s.body, eager, o);
      after := Done;
    }
  }

  lemma {:induction false} TryEndsRun(s: Stmt, eager: bool, o: Outcome) returns (r: Run)
    requires s.Try? && o in Ends(s)
    ensures StmtRun(r, s, eager) && Out(r) == o
    decreases s, 2
  {
    var last := BlockEnds(s.finalbody);
    var overrides := o != Normal && o in last;
    var b: Outcome :| b in BeforeFinally(s) && (overrides || b == o);
    NeverHaltedBefore(s);
    var sub, after := BeforeRun(s, eager, b);
    var final := BlockEndsRun(s.finalbody, eager, if overrides then o else Normal);
    r := Attempt(s.id, sub, after, final);
  }

  lemma {:induction false} NeverHaltedBlock(block: seq<Stmt>)
    ensures Halted !in BlockEnds(block)
    decreases block, 0
  {
    if block == [] {
    } else {
      NeverHalted(block[0]);
      NeverHaltedBlock(block[1..]);
    }
  }

  lemma {:induction false} NeverHalted(s: Stmt)
    ensures Halted !in Ends(s)
    decreases s, 2
  {
    match s
    case If(_, _, body, orelse) => NeverHaltedBlock(body); NeverHaltedBlock(orelse);
    case While(_, _, body, orelse) => NeverHaltedBlock(body); NeverHaltedBlock(orelse);
    case For(_, _, _, body, orelse) => NeverHaltedBlock(body); NeverHaltedBlock(orelse);
    case With(_, _, body) => NeverHaltedBlock(body);
    case Try(_, _, _, _, _, finalbody) => NeverHaltedBefore(s); NeverHaltedBlock(finalbody);
    case Match(_, _, cases) =>
      if Halted in CasesEnds(cases) {
        var i := CaseEndsFrom(cases, Halted);
        NeverHaltedBlock(cases[i].body);
      }
    case ClassDef(_, _, body, _) => NeverHaltedBlock(body);
    case _ =>
  }

  lemma {:induction false} NeverHaltedBefore(s: Stmt)
    requires s.Try?
    ensures Halted !in BeforeFinally(s)
    decreases s, 1
  {
    NeverHaltedBlock(s.body);
    NeverHaltedBlock(s.orelse);
    if Halted in BodiesEnds(s.handlers) {
      var i := BodyEndsFrom(s.handlers, Halted);
      NeverHaltedBlock(s.handlers[i].body);
    }
  }

  // ---- exactly ------------------------------------------------------------------------------

  /** The computed ends of a block are exactly the ends its executions have. */
  lemma BlockEndsExact(block: seq<Stmt>, eager: bool, o: Outcome)
    requires o != Halted
    ensures o in BlockEnds(block) <==> exists r :: BlockRun(r, block, eager) && Out(r) == o
  {
    if o in BlockEnds(block) { var r := BlockEndsRun(block, eager, o); }
    if r :| BlockRun(r, block, eager) && Out(r) == o { BlockEndsSound(r, block, eager); }
  }

  /** The same for a statement. */
  lemma EndsExact(s: Stmt, eager: bool, o: Outcome)
    requires o != Halted
    ensures o in Ends(s) <==> exists r :: StmtRun(r, s, eager) && Out(r) == o
  {
    if o in Ends(s) { var r := EndsRun(s, eager, o); }
    if r :| StmtRun(r, s, eager) && Out(r) == o { EndsSound(r, s, eager); }
  }
}

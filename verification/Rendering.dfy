/** `renderValue` and `unresolvedToken` of catalog/runtime.go on whole JSON trees. */
module Rendering {
  import opened JsonTrees
  import opened Templates

  /** `out` is a result `renderValue` can produce: each string is rendered in some iteration order
      of the variable map, a different one for each string if the runtime likes. */
  ghost predicate Renders(v: Json, vars: Vars, out: Json) {
    match v
    case Str(s) =>
      out.Str? && exists order: seq<string> :: Enumerates(order, vars.Keys) && out.s == Sequential(s, order, vars)
    case Arr(items) =>
      out.Arr? && |out.items| == |items| && forall i | 0 <= i < |items| :: Renders(items[i], vars, out.items[i])
    case Obj(fields) =>
      out.Obj? && out.fields.Keys == fields.Keys && forall k | k in fields :: Renders(fields[k], vars, out.fields[k])
    case _ => out == v
  }

  /** Every string substituted simultaneously. */
  ghost function Rendered(v: Json, vars: Vars): Json {
    match v
    case Str(s) => Str(Simultaneous(s, vars.Keys, vars))
    case Arr(items) => Arr(seq(|items|, i requires 0 <= i < |items| => Rendered(items[i], vars)))
    case Obj(fields) => Obj(map k | k in fields :: Rendered(fields[k], vars))
    case _ => v
  }

  ghost predicate ClearTree(v: Json, keys: set<string>) {
    match v
    case Str(s) => Clear(s, keys)
    case Arr(items) => forall i | 0 <= i < |items| :: ClearTree(items[i], keys)
    case Obj(fields) => forall k | k in fields :: ClearTree(fields[k], keys)
    case _ => true
  }

  /** `unresolvedToken`. */
  predicate UnresolvedTree(v: Json) {
    match v
    case Str(s) => Unresolved(s)
    case Arr(items) => exists i | 0 <= i < |items| :: UnresolvedTree(items[i])
    case Obj(fields) => exists k | k in fields :: UnresolvedTree(fields[k])
    case _ => false
  }

  predicate ForeignTree(v: Json, keys: set<string>) {
    match v
    case Str(s) => ForeignToken(s, keys)
    case Arr(items) => exists i | 0 <= i < |items| :: ForeignTree(items[i], keys)
    case Obj(fields) => exists k | k in fields :: ForeignTree(fields[k], keys)
    case _ => false
  }

  lemma {:induction false} SomeOrder(keys: set<string>) returns (order: seq<string>)
    ensures Enumerates(order, keys)
  {
    if keys == {} {
      order := [];
    } else {
      var k :| k in keys;
      var rest := SomeOrder(keys - {k});
      order := [k] + rest;
    }
  }

  /** Render determinism: on a clear tree with `$`-free values `renderValue` has exactly one possible
      result, the simultaneous substitution, so what is hashed afterwards has one digest. */
  lemma {:induction false} RenderIsDeterministic(v: Json, vars: Vars, out: Json)
    requires PlainKeys(vars.Keys) && DollarFree(vars) && ClearTree(v, vars.Keys)
    ensures Renders(v, vars, out) <==> out == Rendered(v, vars)
    decreases v
  {
    match v
    case Str(s) =>
      forall order: seq<string> | Enumerates(order, vars.Keys)
        ensures Sequential(s, order, vars) == Simultaneous(s, vars.Keys, vars)
      {
        SequentialIsSimultaneous(s, order, vars.Keys, vars);
      }
      var order := SomeOrder(vars.Keys);
    case Arr(items) =>
      if out.Arr? && |out.items| == |items| {
        forall i | 0 <= i < |items| { RenderIsDeterministic(items[i], vars, out.items[i]); }
        assert Renders(v, vars, out) ==> out.items == Rendered(v, vars).items;
      }
    case Obj(fields) =>
      if out.Obj? && out.fields.Keys == fields.Keys {
        forall k | k in fields { RenderIsDeterministic(fields[k], vars, out.fields[k]); }
        assert Renders(v, vars, out) ==> out.fields == Rendered(v, vars).fields;
      }
    case _ =>
  }

  /** The check after rendering fails exactly on trees with a `${` that opens no known token,
      whatever the values and the iteration order. */
  lemma {:induction false} UnresolvedTreeIffForeign(v: Json, vars: Vars, j: string, k: string)
    requires PlainKeys(vars.Keys) && DollarFree(vars) && ClearTree(v, vars.Keys)
    requires j in vars && k in vars && j != k
    ensures UnresolvedTree(Rendered(v, vars)) <==> ForeignTree(v, vars.Keys)
    decreases v
  {
    var out := Rendered(v, vars);
    match v
    case Str(s) => UnresolvedIffForeign(s, vars.Keys, vars, j, k);
    case Arr(items) =>
      forall i | 0 <= i < |items| ensures UnresolvedTree(out.items[i]) <==> ForeignTree(items[i], vars.Keys) {
        UnresolvedTreeIffForeign(items[i], vars, j, k);
      }
    case Obj(fields) =>
      forall f | f in fields ensures UnresolvedTree(out.fields[f]) <==> ForeignTree(fields[f], vars.Keys) {
        UnresolvedTreeIffForeign(fields[f], vars, j, k);
      }
    case _ =>
  }
}

/** Who may change what in the registry: when each transition succeeds, and what no run can do without the
    transition authority. */
module CertificationAuthority {
  import opened Collections
  import opened Text
  import opened Certification
  import opened CertificationSafety
  import opened CertificationRuns

  // ---- when a transition succeeds -----------------------------------------------------------

  lemma FindIs(r: Registry, catalog: Catalog, id: Header, i: nat)
    requires ValidFor(r, catalog, id) && i < |r.components|
    ensures Find(r.components, r.components[i].component) == i
  {
    var j := Find(r.components, r.components[i].component);
    assert Names(r.components)[j] == Names(r.components)[i];
  }

  /** The contract of this exact name is bound to this release and digest. */
  predicate BoundAt(r: Registry, i: nat, c: Component)
    requires i < |r.components|
  {
    var k := r.components[i];
    k.component == c.name && k.release == c.release && k.source.resolved && k.source.digest == c.digest
  }

  /** One contract is bound to this release and digest, and nothing else has changed. */
  ghost predicate Rebound(r: Registry, r': Registry, i: nat, c: Component)
    requires i < |r.components|
  {
    && r' == r.(components := r'.components) && |r'.components| == |r.components|
    && (forall j | 0 <= j < |r.components| && j != i :: r'.components[j] == r.components[j])
    && BoundAt(r', i, c) && r'.components[i].source.status == "source-ready"
  }

  lemma ReadyIfResolved(r: Registry, catalog: Catalog, id: Header, i: nat)
    requires ValidFor(r, catalog, id) && i < |r.components| && r.components[i].source.resolved
    ensures r.components[i].component != "" && r.components[i].source.status == "source-ready"
    ensures GoTrim(r.components[i].source.digest) != ""
  {
    assert ContractOk(r.components[i], r.holds, catalog);
  }

  lemma BoundIsFound(r: Registry, catalog: Catalog, id: Header, i: nat, c: Component)
    requires ValidFor(r, catalog, id) && i < |r.components| && BoundAt(r, i, c)
    ensures Find(r.components, c.name) == i && BoundTo(r.components[i], c) && c.name != "" && GoTrim(c.digest) != ""
  {
    FindIs(r, catalog, id, i);
    ReadyIfResolved(r, catalog, id, i);
  }

  ghost predicate SomeBound(r: Registry, c: Component) {
    exists i | 0 <= i < |r.components| :: BoundAt(r, i, c)
  }

  /** The two sources differ in release and digest, are resolved, and are of the same component. */
  predicate Distinguished(previous: Component, target: Component) {
    && previous.name == target.name && previous.resolved && target.resolved && GoTrim(target.digest) != ""
    && previous.release != target.release && previous.digest != target.digest
  }

  lemma MigrateSucceeds(r: Registry, catalog: Catalog, previous: Component, target: Component, authority: string,
                        id: Header)
    requires ValidFor(r, catalog, id) && GoTrim(authority) == TRANSITION && Distinguished(previous, target)
    requires SomeBound(r, previous)
    ensures Migrate(r, previous, target, authority).Some?
  {
    var i :| 0 <= i < |r.components| && BoundAt(r, i, previous);
    BoundIsFound(r, catalog, id, i, previous);
  }

  lemma MigrateNeeds(r: Registry, previous: Component, target: Component, authority: string)
    requires Migrate(r, previous, target, authority).Some?
    ensures GoTrim(authority) == TRANSITION && Distinguished(previous, target) && SomeBound(r, previous)
    ensures var i := Find(r.components, previous.name);
            i >= 0 && Rebound(r, Migrate(r, previous, target, authority).value, i, target)
  {
    assert BoundAt(r, Find(r.components, previous.name), previous);
  }

  /** A valid registry is migrated exactly with the transition authority, from the source its contract is
      bound to, to a resolved source of the same component with another release and another digest; that
      contract is then bound to the target, and nothing else has changed. */
  lemma MigratesExactlyWhen(r: Registry, catalog: Catalog, previous: Component, target: Component, authority: string,
                            id: Header)
    requires ValidFor(r, catalog, id)
    ensures Migrate(r, previous, target, authority).Some?
            <==> GoTrim(authority) == TRANSITION && Distinguished(previous, target) && SomeBound(r, previous)
    ensures Migrate(r, previous, target, authority).Some?
            ==> var i := Find(r.components, previous.name);
                i >= 0 && Rebound(r, Migrate(r, previous, target, authority).value, i, target)
  {
    if Migrate(r, previous, target, authority).Some? {
      MigrateNeeds(r, previous, target, authority);
    } else if GoTrim(authority) == TRANSITION && Distinguished(previous, target) && SomeBound(r, previous) {
      MigrateSucceeds(r, catalog, previous, target, authority, id);
    }
  }

  /** The contract of the component is unresolved, or bound to this source already. */
  predicate MayBind(r: Registry, i: nat, c: Component)
    requires i < |r.components|
  {
    r.components[i].component == c.name && (r.components[i].source.resolved ==> BoundAt(r, i, c))
  }

  ghost predicate SomeMayBind(r: Registry, c: Component) {
    exists i | 0 <= i < |r.components| :: MayBind(r, i, c)
  }

  lemma RebindSucceeds(r: Registry, catalog: Catalog, c: Component, id: Header)
    requires ValidFor(r, catalog, id) && c.resolved && GoTrim(c.digest) != "" && SomeMayBind(r, c)
    ensures Rebind(r, c).Some?
  {
    var i :| 0 <= i < |r.components| && MayBind(r, i, c);
    FindIs(r, catalog, id, i);
  }

  lemma RebindNeeds(r: Registry, catalog: Catalog, c: Component, id: Header)
    requires ValidFor(r, catalog, id) && Rebind(r, c).Some?
    ensures c.resolved && GoTrim(c.digest) != "" && SomeMayBind(r, c)
    ensures var i := Find(r.components, c.name);
            && i >= 0 && Rebound(r, Rebind(r, c).value, i, c)
            && (r.components[i].source.resolved ==> Rebind(r, c).value == r)
  {
    var i, k' := RebindShape(r, c);
    assert MayBind(r, i, c);
    if r.components[i].source.resolved { ReadyIfResolved(r, catalog, id, i); }
  }

  /** A valid registry is rebound exactly to a resolved source whose contract is unresolved or bound to it
      already; the contract is then bound to it, nothing else has changed, and in the latter case nothing at
      all. */
  lemma RebindsExactlyWhen(r: Registry, catalog: Catalog, c: Component, id: Header)
    requires ValidFor(r, catalog, id)
    ensures Rebind(r, c).Some? <==> c.resolved && GoTrim(c.digest) != "" && SomeMayBind(r, c)
    ensures Rebind(r, c).Some?
            ==> var i := Find(r.components, c.name);
                && i >= 0 && Rebound(r, Rebind(r, c).value, i, c)
                && (r.components[i].source.resolved ==> Rebind(r, c).value == r)
  {
    if Rebind(r, c).Some? {
      RebindNeeds(r, catalog, c, id);
    } else if c.resolved && GoTrim(c.digest) != "" && SomeMayBind(r, c) {
      RebindSucceeds(r, catalog, c, id);
    }
  }

  /** A hold the transition authority may lift: its own, and one that awaits a dependency transition. */
  predicate Liftable(h: Hold) {
    h.status == "dependency-transition-required" && h.authority == TRANSITION
  }

  lemma ReleasableIs(holds: seq<Hold>, h: nat)
    requires HoldsDistinct(holds) && h < |holds| && Liftable(holds[h])
    ensures ReleasableHold(holds, holds[h].component, TRANSITION) == h
  {
    forall j | 0 <= j < |holds| && j != h ensures holds[j].component != holds[h].component {
      assert HeldName(holds[if j < h then j else h]) != HeldName(holds[if j < h then h else j]);
    }
  }

  lemma HeldIfResolved(r: Registry, catalog: Catalog, id: Header, i: nat, h: nat)
    requires ValidFor(r, catalog, id) && i < |r.components| && h < |r.holds| && r.components[i].source.resolved
    requires r.holds[h].component == r.components[i].component
    ensures ReadyToRelease(r.components[i])
  {
    assert ContractOk(r.components[i], r.holds, catalog);
    HoldForIs(r.holds, h);
  }

  /** There is a hold of this exact name to lift, and its component has a resolved source. */
  ghost predicate CanLift(r: Registry, name: string) {
    && (exists h | 0 <= h < |r.holds| :: r.holds[h].component == name && Liftable(r.holds[h]))
    && (exists i | 0 <= i < |r.components| :: r.components[i].component == name && r.components[i].source.resolved)
  }

  lemma LiftAt(r: Registry, component: string, authority: string, h: nat, i: nat)
    requires GoTrim(authority) == TRANSITION && GoTrim(component) != ""
    requires h == ReleasableHold(r.holds, GoTrim(component), TRANSITION) && i == Find(r.components, GoTrim(component))
    requires i < |r.components| && ReadyToRelease(r.components[i])
    ensures Release(r, component, authority).Some?
  {
  }

  lemma LiftSucceeds(r: Registry, catalog: Catalog, component: string, authority: string, id: Header)
    requires ValidFor(r, catalog, id) && GoTrim(authority) == TRANSITION && CanLift(r, GoTrim(component))
    ensures Release(r, component, authority).Some?
  {
    var name := GoTrim(component);
    var h :| 0 <= h < |r.holds| && r.holds[h].component == name && Liftable(r.holds[h]);
    var i :| 0 <= i < |r.components| && r.components[i].component == name && r.components[i].source.resolved;
    ReleasableIs(r.holds, h);
    FindIs(r, catalog, id, i);
    HeldIfResolved(r, catalog, id, i, h);
    ReadyIfResolved(r, catalog, id, i);
    LiftAt(r, component, authority, h, i);
  }

  lemma LiftNeeds(r: Registry, component: string, authority: string)
    requires Release(r, component, authority).Some?
    ensures GoTrim(authority) == TRANSITION && CanLift(r, GoTrim(component))
  {
    var name := GoTrim(component);
    assert Liftable(r.holds[ReleasableHold(r.holds, name, TRANSITION)]);
    assert r.components[Find(r.components, name)].component == name;
  }

  /** In a valid registry a hold is released exactly with the transition authority, when it is liftable
      and its component's source is resolved. */
  lemma ReleasesExactlyWhen(r: Registry, catalog: Catalog, component: string, authority: string, id: Header)
    requires ValidFor(r, catalog, id)
    ensures Release(r, component, authority).Some? <==> GoTrim(authority) == TRANSITION && CanLift(r, GoTrim(component))
  {
    if Release(r, component, authority).Some? {
      LiftNeeds(r, component, authority);
    } else if GoTrim(authority) == TRANSITION && CanLift(r, GoTrim(component)) {
      LiftSucceeds(r, catalog, component, authority, id);
    }
  }

  // ---- what no run can do -------------------------------------------------------------------

  /** No operation carries the transition authority. */
  predicate Unauthorized(ops: seq<Op>) {
    forall op | op in ops :: !op.RebindOp? ==> GoTrim(op.authority) != TRANSITION
  }

  lemma ApplyUnauthorized(r: Registry, op: Op)
    requires !op.RebindOp? ==> GoTrim(op.authority) != TRANSITION
    ensures var r' := Apply(r, op);
            && r'.holds == r.holds && |r'.components| == |r.components|
            && forall j | 0 <= j < |r.components| && r.components[j].source.resolved ::
                 r'.components[j] == r.components[j]
  {
    if op.RebindOp? && Rebind(r, op.c).Some? { var i, k' := RebindShape(r, op.c); }
  }

  /** Over any run in which no operation carries the transition authority, every hold stays and every
      contract with a resolved source stays as it is. */
  lemma {:induction false} UnauthorizedChangesNothing(r: Registry, ops: seq<Op>, j: nat)
    requires Unauthorized(ops) && j < |r.components| && r.components[j].source.resolved
    ensures var r' := Run(r, ops);
            r'.holds == r.holds && |r'.components| == |r.components| && r'.components[j] == r.components[j]
    decreases |ops|
  {
    if ops == [] {
    } else {
      assert ops[0] in ops && forall op | op in ops[1..] :: op in ops;
      ApplyUnauthorized(r, ops[0]);
      UnauthorizedChangesNothing(Apply(r, ops[0]), ops[1..], j);
    }
  }

  /** Some operation lifts this hold: by its exact name, with the authority, if it is liftable at all. */
  predicate Lifts(ops: seq<Op>, h: Hold) {
    Liftable(h) && exists op | op in ops ::
      op.ReleaseOp? && GoTrim(op.authority) == TRANSITION && GoTrim(op.component) == h.component
  }

  lemma ApplyKeepsHold(r: Registry, op: Op, h: Hold)
    ensures h in Apply(r, op).holds ==> h in r.holds
    ensures h in r.holds && !Lifts([op], h) ==> h in Apply(r, op).holds
  {
    if op.ReleaseOp? && Release(r, op.component, op.authority).Some? {
      var name := GoTrim(op.component);
      var x := ReleasableHold(r.holds, name, TRANSITION);
      var rest := Without(r.holds, x);
      if h in r.holds && !Lifts([op], h) {
        var i :| 0 <= i < |r.holds| && r.holds[i] == h;
        assert op in [op];
        assert i != x;
        assert rest[if i < x then i else i - 1] == h;
      }
    }
  }

  lemma LiftsSome(ops: seq<Op>, op: Op, h: Hold)
    requires op in ops && Lifts([op], h)
    ensures Lifts(ops, h)
  {
  }

  /** Over any run no hold appears, and a hold goes only when the authority lifts it by name: one under
      review, or of another authority, never goes. */
  lemma {:induction false} HoldsForGood(r: Registry, ops: seq<Op>, h: Hold)
    ensures h in Run(r, ops).holds ==> h in r.holds
    ensures h in r.holds && !Lifts(ops, h) ==> h in Run(r, ops).holds
    decreases |ops|
  {
    if ops == [] {
    } else {
      var r1 := Apply(r, ops[0]);
      ApplyKeepsHold(r, ops[0], h);
      HoldsForGood(r1, ops[1..], h);
      if Lifts([ops[0]], h) { LiftsSome(ops, ops[0], h); }
      if Lifts(ops[1..], h) {
        var op :| op in ops[1..] && op.ReleaseOp? && GoTrim(op.authority) == TRANSITION
                  && GoTrim(op.component) == h.component;
        assert op in [op];
        LiftsSome(ops, op, h);
      }
    }
  }

  lemma HeldContract(k: Contract, holds: seq<Hold>, catalog: Catalog, h: Hold)
    requires ContractOk(k, holds, catalog) && HoldsDistinct(holds) && h in holds
    requires GoTrim(h.component) == GoTrim(k.component)
    ensures k.executor.status == if k.source.resolved then HELD else "source-gated-component-executor"
    ensures forall i | 0 <= i < |k.lifecycle| ::
              && k.lifecycle[i].status != "component-runtime-executable"
              && (k.source.resolved ==> k.lifecycle[i].authority == h.authority)
  {
    var i :| 0 <= i < |holds| && holds[i] == h;
    HoldForIs(holds, i);
    var name := GoTrim(k.component);
    forall j | 0 <= j < |k.lifecycle|
      ensures k.lifecycle[j].status != "component-runtime-executable"
      ensures k.source.resolved ==> k.lifecycle[j].authority == h.authority
    {
      assert StageOk(k.lifecycle[j], j, name, catalog[name].resolved, Some(h));
    }
  }

  /** Over any run from a valid registry with trim-stable names, migrations and bindings included, the
      component of a hold that nobody lifts never becomes executable, and once its source is resolved
      all its stages wait for the authority of the hold. */
  lemma HeldNeverExecutable(r: Registry, catalog: Catalog, ops: seq<Op>, id: Header, h: Hold, j: nat)
    requires ValidFor(r, catalog, id) && TrimStable(r) && h in r.holds && !Lifts(ops, h)
    requires j < |r.components| && r.components[j].component == h.component
    ensures |Run(r, ops).components| == |r.components|
    ensures var k := Run(r, ops).components[j];
            && k.component == h.component
            && k.executor.status == (if k.source.resolved then HELD else "source-gated-component-executor")
            && forall i | 0 <= i < |k.lifecycle| ::
                 && k.lifecycle[i].status != "component-runtime-executable"
                 && (k.source.resolved ==> k.lifecycle[i].authority == h.authority)
  {
    var r', catalog' := Run(r, ops), CatalogAfter(catalog, r, ops);
    RunKeepsValid(r, catalog, ops, id);
    NamesForGood(r, ops);
    HoldsForGood(r, ops, h);
    assert ContractOk(r'.components[j], r'.holds, catalog');
    HeldContract(r'.components[j], r'.holds, catalog', h);
  }
}

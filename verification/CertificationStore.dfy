/** The registry as the object the transitions update in place, each method proved against the
    function of the registry's value that specifies it, and the validator against `ValidFor`. */
module CertificationStore {
  import opened Collections
  import opened Text
  import opened Certification
  import opened CertificationSafety

  /** `holdByComponent`: a later hold replaces an earlier one of the same exact name. */
  method IndexHolds(holds: seq<Hold>) returns (byName: map<string, Hold>)
    ensures forall name :: RawHold(holds, name) == if name in byName then Some(byName[name]) else None
  {
    byName := map[];
    for n := 0 to |holds|
      invariant forall name :: RawHold(holds[..n], name) == if name in byName then Some(byName[name]) else None
    {
      assert holds[..n + 1][..n] == holds[..n];
      byName := byName[holds[n].component := holds[n]];
    }
    assert holds[..|holds|] == holds;
  }

  method GateStages(stages: seq<Stage>, hold: Option<Hold>) returns (out: seq<Stage>)
    ensures out == GatedAll(stages, hold)
  {
    out := stages;
    for j := 0 to |stages|
      invariant |out| == |stages|
      invariant forall i | 0 <= i < j :: out[i] == Gated(stages[i], hold)
      invariant forall i | j <= i < |out| :: out[i] == stages[i]
    {
      var stage := out[j];
      if hold.Some? {
        stage := stage.(status := "pending-runtime-suitability", authority := hold.value.authority);
      } else if stage.name == "upgrade" {
        stage := stage.(status := "pending-upgrade-matrix", authority := "COMPONENT_RUNTIME_UPGRADE_V1");
      } else {
        stage := stage.(status := "component-runtime-executable", authority := "COMPONENT_RUNTIME_V1");
      }
      out := out[j := stage];
    }
  }

  /** The part rebind and migrate share once a contract may be bound. */
  method BindContract(k: Contract, c: Component, byName: map<string, Hold>, ghost holds: seq<Hold>)
    returns (k': Contract)
    requires forall name :: RawHold(holds, name) == if name in byName then Some(byName[name]) else None
    ensures k' == Bound(k, c, holds)
  {
    k' := k.(release := c.release, source := SourceBinding("source-ready", true, c.digest));
    if k'.component != FOUNDATION {
      var hold := if k'.component in byName then Some(byName[k'.component]) else None;
      var stages := GateStages(k'.lifecycle, hold);
      var executor := k'.executor.(profile := "COMPONENT_RUNTIME_V1", status := if hold.Some? then HELD else PARTIAL);
      k' := k'.(executor := executor, lifecycle := stages);
    }
  }

  class RegistryObject {
    const header: Header
    var holds: seq<Hold>
    var components: seq<Contract>

    function Value(): Registry
      reads this
    {
      Registry(header, holds, components)
    }

    constructor (r: Registry)
      ensures Value() == r
    {
      header, holds, components := r.header, r.holds, r.components;
    }

    /** A refused call leaves the registry as it was. */
    method RebindSource(c: Component) returns (ok: bool)
      modifies this`components
      ensures ok <==> Rebind(old(Value()), c).Some?
      ensures Value() == if ok then Rebind(old(Value()), c).value else old(Value())
    {
      var byName := IndexHolds(holds);
      for i := 0 to |components|
        invariant components == old(components)
        invariant forall j | 0 <= j < i :: components[j].component != c.name
      {
        var k := components[i];
        if k.component == c.name {
          assert Find(components, c.name) == i;
          if !c.resolved || GoTrim(c.digest) == "" { return false; }
          if k.source.resolved {
            return k.release == c.release && k.source.digest == c.digest;
          }
          var k' := BindContract(k, c, byName, holds);
          components := components[i := k'];
          return true;
        }
      }
      assert Find(components, c.name) < 0;
      return false;
    }

    method MigrateSource(previous: Component, target: Component, authority: string) returns (ok: bool)
      modifies this`components
      ensures ok <==> Migrate(old(Value()), previous, target, authority).Some?
      ensures Value() == if ok then Migrate(old(Value()), previous, target, authority).value else old(Value())
    {
      if GoTrim(authority) != TRANSITION { return false; }
      if previous.name == "" || previous.name != target.name { return false; }
      if !previous.resolved || !target.resolved || GoTrim(previous.digest) == "" || GoTrim(target.digest) == "" {
        return false;
      }
      if previous.release == target.release || previous.digest == target.digest { return false; }
      var byName := IndexHolds(holds);
      for i := 0 to |components|
        invariant components == old(components)
        invariant forall j | 0 <= j < i :: components[j].component != previous.name
      {
        var k := components[i];
        if k.component == previous.name {
          assert Find(components, previous.name) == i;
          if k.release != previous.release || !k.source.resolved || k.source.status != "source-ready"
             || k.source.digest != previous.digest {
            return false;
          }
          var k' := BindContract(k, target, byName, holds);
          components := components[i := k'];
          return true;
        }
      }
      assert Find(components, previous.name) < 0;
      return false;
    }

    method ReleaseHold(component: string, authority: string) returns (ok: bool)
      modifies this`components, this`holds
      ensures ok <==> Release(old(Value()), component, authority).Some?
      ensures Value() == if ok then Release(old(Value()), component, authority).value else old(Value())
    {
      var wanted, auth := GoTrim(component), GoTrim(authority);
      if wanted == "" || auth != TRANSITION { return false; }
      var index := FindReleasable(holds, wanted, auth);
      if index < 0 { return false; }
      for i := 0 to |components|
        invariant components == old(components) && holds == old(holds)
        invariant forall j | 0 <= j < i :: components[j].component != wanted
      {
        var k := components[i];
        if k.component == wanted {
          assert Find(components, wanted) == i;
          if || !k.source.resolved || k.source.status != "source-ready"
             || GoTrim(k.source.digest) == "" || k.executor.status != HELD {
            return false;
          }
          holds := holds[..index] + holds[index + 1..];
          var stages := GateStages(k.lifecycle, None);
          var executor := k.executor.(status := PARTIAL, profile := "COMPONENT_RUNTIME_V1");
          components := components[i := k.(executor := executor, lifecycle := stages)];
          return true;
        }
      }
      assert Find(components, wanted) < 0;
      return false;
    }

    /** `ValidateComponentRuntimeCertificationRegistry`, which changes nothing. */
    method Validate(catalog: Catalog) returns (ok: bool)
      ensures ok <==> ValidFor(Value(), catalog, IDENTITY)
    {
      if header != IDENTITY || |components| != |catalog| { return false; }
      var holdsOk, byName := CheckHolds(holds, catalog);
      if !holdsOk { return false; }
      ok := CheckContracts(components, byName, catalog, holds);
    }
  }

  /** The names met so far are all different, and are these. */
  ghost predicate Met(names: seq<string>, n: nat, seen: set<string>)
    requires n <= |names|
  {
    Distinct(names[..n]) && forall x :: x in seen <==> x in names[..n]
  }

  lemma MetOneMore(names: seq<string>, n: nat, seen: set<string>)
    requires n < |names| && Met(names, n, seen) && names[n] !in seen
    ensures Met(names, n + 1, seen + {names[n]})
  {
    var before, after := names[..n], names[..n + 1];
    assert after == before + [names[n]];
    forall i, j | 0 <= i < j < |after| ensures after[i] != after[j] {
      assert after[i] == before[i] && before[i] in before;
    }
  }

  lemma MetTwice(names: seq<string>, n: nat, seen: set<string>)
    requires n < |names| && Met(names, n, seen) && names[n] in seen
    ensures !Distinct(names)
  {
    var i :| 0 <= i < n && names[..n][i] == names[n];
    assert names[i] == names[n];
  }

  method CheckContracts(ks: seq<Contract>, byName: map<string, Hold>, catalog: Catalog, ghost holds: seq<Hold>)
    returns (ok: bool)
    requires Indexes(byName, holds)
    ensures ok <==> && ContractsOk(ks, holds, catalog) && Distinct(Names(ks))
                    && forall name | name in catalog :: name in Names(ks)
  {
    var seen;
    ok, seen := ScanContracts(ks, byName, catalog, holds, k => ContractOk(k, holds, catalog));
    if ok {
      ok := CheckCovered(catalog.Keys, seen);
      CoveredIff(catalog, seen, Names(ks));
    }
  }

  lemma CoveredIff(catalog: Catalog, seen: set<string>, names: seq<string>)
    requires Met(names, |names|, seen)
    ensures catalog.Keys <= seen <==> forall name | name in catalog :: name in names
  {
    assert names[..|names|] == names;
  }

  /** The first contracts pass, and their names are these, all different. */
  ghost predicate Scanned(ks: seq<Contract>, n: nat, ok: Contract -> bool, seen: set<string>)
    requires n <= |ks|
  {
    (forall i | 0 <= i < n :: ok(ks[i])) && Met(Names(ks), n, seen)
  }

  lemma ScannedMore(ks: seq<Contract>, n: nat, ok: Contract -> bool, seen: set<string>)
    requires n < |ks| && Scanned(ks, n, ok, seen) && ok(ks[n]) && GoTrim(ks[n].component) !in seen
    ensures Scanned(ks, n + 1, ok, seen + {GoTrim(ks[n].component)})
  {
    MetOneMore(Names(ks), n, seen);
  }

  lemma ScannedTwice(ks: seq<Contract>, n: nat, ok: Contract -> bool, seen: set<string>)
    requires n < |ks| && Scanned(ks, n, ok, seen) && GoTrim(ks[n].component) in seen
    ensures !Distinct(Names(ks))
  {
    MetTwice(Names(ks), n, seen);
  }

  lemma ScannedAll(ks: seq<Contract>, ok: Contract -> bool, seen: set<string>)
    requires Scanned(ks, |ks|, ok, seen)
    ensures Distinct(Names(ks)) && Met(Names(ks), |Names(ks)|, seen) && forall i | 0 <= i < |ks| :: ok(ks[i])
  {
    assert Names(ks)[..|ks|] == Names(ks);
  }

  /** One turn of the loop over the contracts. */
  method ScanContract(ks: seq<Contract>, n: nat, byName: map<string, Hold>, catalog: Catalog, ghost holds: seq<Hold>,
                      seen: set<string>, ghost good: Contract -> bool)
    returns (ok: bool, seen': set<string>)
    requires n < |ks| && Indexes(byName, holds) && good(ks[n]) == ContractOk(ks[n], holds, catalog)
    requires Scanned(ks, n, good, seen)
    ensures if ok then Scanned(ks, n + 1, good, seen') else !good(ks[n]) || !Distinct(Names(ks))
  {
    var trimmed := GoTrim(ks[n].component);
    seen' := seen + {trimmed};
    if trimmed in seen {
      ScannedTwice(ks, n, good, seen);
      return false, seen';
    }
    ok := CheckContract(ks[n], byName, catalog, holds);
    if ok { ScannedMore(ks, n, good, seen); }
  }

  /** The loop over the contracts, with the names seen. */
  method ScanContracts(ks: seq<Contract>, byName: map<string, Hold>, catalog: Catalog, ghost holds: seq<Hold>,
                       ghost good: Contract -> bool)
    returns (ok: bool, seen: set<string>)
    requires Indexes(byName, holds) && forall k :: good(k) == ContractOk(k, holds, catalog)
    ensures ok <==> (forall i | 0 <= i < |ks| :: good(ks[i])) && Distinct(Names(ks))
    ensures ok ==> Met(Names(ks), |Names(ks)|, seen)
  {
    seen := {};
    for n := 0 to |ks|
      invariant Scanned(ks, n, good, seen)
    {
      ok, seen := ScanContract(ks, n, byName, catalog, holds, seen, good);
      if !ok { return; }
    }
    ScannedAll(ks, good, seen);
    ok := true;
  }

  method CheckCovered(wanted: set<string>, seen: set<string>) returns (ok: bool)
    ensures ok <==> wanted <= seen
  {
    var rest := wanted;
    while rest != {}
      invariant rest <= wanted && wanted - rest <= seen
    {
      var x :| x in rest;
      if x !in seen { return false; }
      rest := rest - {x};
    }
    return true;
  }

  /** The scan for the one hold to release. */
  method FindReleasable(holds: seq<Hold>, wanted: string, authority: string) returns (index: int)
    ensures index == ReleasableHold(holds, wanted, authority)
  {
    index := -1;
    for i := 0 to |holds|
      invariant -1 <= index < i
      invariant index >= 0 ==> holds[index].component == wanted && Releasable(holds[index], authority)
      invariant forall j | 0 <= j < i && j != index :: holds[j].component != wanted
    {
      if holds[i].component == wanted {
        if index >= 0 || holds[i].status != "dependency-transition-required" || holds[i].authority != authority {
          assert ReleasableHold(holds, wanted, authority) < 0;
          return -1;
        }
        index := i;
      }
    }
  }

  lemma {:induction false} HoldForSnoc(holds: seq<Hold>, h: Hold, name: string)
    ensures HoldFor(holds + [h], name) == if HoldFor(holds, name).Some? then HoldFor(holds, name)
                                          else if GoTrim(h.component) == name then Some(h) else None
  {
    if holds == [] {
      assert [h][1..] == [];
    } else {
      HoldForSnoc(holds[1..], h, name);
      assert (holds + [h])[1..] == holds[1..] + [h];
    }
  }

  predicate Indexes(byName: map<string, Hold>, holds: seq<Hold>) {
    && (forall name | name in byName :: HoldFor(holds, name) == Some(byName[name]))
    && (forall i | 0 <= i < |holds| :: GoTrim(holds[i].component) in byName)
  }

  /** A hold of a name already indexed. */
  lemma HeldTwice(holds: seq<Hold>, n: nat, byName: map<string, Hold>)
    requires n < |holds| && Indexes(byName, holds[..n]) && GoTrim(holds[n].component) in byName
    ensures !HoldsDistinct(holds)
  {
    var trimmed := GoTrim(holds[n].component);
    HoldForFound(holds[..n], trimmed);
    var i :| 0 <= i < n && GoTrim(holds[..n][i].component) == trimmed;
    assert HeldName(holds[i]) == HeldName(holds[n]);
  }

  lemma HoldsOkMore(holds: seq<Hold>, n: nat, catalog: Catalog, byName: map<string, Hold>)
    requires n < |holds| && HoldsOk(holds[..n], catalog) && Indexes(byName, holds[..n])
    requires GoTrim(holds[n].component) !in byName && HoldOk(holds[n], catalog)
    ensures HoldsOk(holds[..n + 1], catalog)
  {
    var before := holds[..n];
    assert holds[..n + 1] == before + [holds[n]];
    KeysDistinctSnoc(before, holds[n], HeldName);
    AllOkSnoc(before, holds[n], h => HoldOk(h, catalog));
  }

  lemma AllOkSnoc(before: seq<Hold>, h: Hold, ok: Hold -> bool)
    requires ok(h) && forall i | 0 <= i < |before| :: ok(before[i])
    ensures forall i | 0 <= i < |before + [h]| :: ok((before + [h])[i])
  {
  }

  lemma IndexesMore(holds: seq<Hold>, n: nat, byName: map<string, Hold>)
    requires n < |holds| && Indexes(byName, holds[..n]) && GoTrim(holds[n].component) !in byName
    ensures Indexes(byName[GoTrim(holds[n].component) := holds[n]], holds[..n + 1])
  {
    var h := holds[n];
    var byName' := byName[GoTrim(h.component) := h];
    assert holds[..n + 1] == holds[..n] + [h];
    forall name | name in byName' ensures HoldFor(holds[..n + 1], name) == Some(byName'[name]) {
      HoldForSnoc(holds[..n], h, name);
      HoldForFound(holds[..n], name);
    }
    var after := holds[..n + 1];
    forall i | 0 <= i < |after| ensures GoTrim(after[i].component) in byName' {
      assert i < n ==> after[i] == holds[..n][i];
    }
  }

  method CheckHolds(holds: seq<Hold>, catalog: Catalog) returns (ok: bool, byName: map<string, Hold>)
    ensures ok <==> HoldsOk(holds, catalog)
    ensures ok ==> Indexes(byName, holds)
  {
    byName := map[];
    for n := 0 to |holds|
      invariant HoldsOk(holds[..n], catalog) && Indexes(byName, holds[..n])
    {
      var h := holds[n];
      var trimmed := GoTrim(h.component);
      if trimmed in byName {
        HeldTwice(holds, n, byName);
        return false, byName;
      }
      if !HoldOk(h, catalog) { return false, byName; }
      HoldsOkMore(holds, n, catalog, byName);
      IndexesMore(holds, n, byName);
      byName := byName[trimmed := h];
    }
    assert holds[..|holds|] == holds;
    ok := true;
  }

  lemma IndexedLookup(byName: map<string, Hold>, holds: seq<Hold>, name: string)
    requires Indexes(byName, holds)
    ensures HoldFor(holds, name) == if name in byName then Some(byName[name]) else None
  {
    HoldForFound(holds, name);
  }

  method CheckStages(stages: seq<Stage>, name: string, resolved: bool, hold: Option<Hold>) returns (ok: bool)
    ensures ok <==> LifecycleOk(stages, name, resolved, hold)
  {
    if |stages| != |STAGES| { return false; }
    for i := 0 to |stages|
      invariant forall j | 0 <= j < i :: StageOk(stages[j], j, name, resolved, hold)
    {
      if !StageOk(stages[i], i, name, resolved, hold) { return false; }
    }
    return true;
  }

  method CheckContract(k: Contract, byName: map<string, Hold>, catalog: Catalog, ghost holds: seq<Hold>)
    returns (ok: bool)
    requires Indexes(byName, holds)
    ensures ok <==> ContractOk(k, holds, catalog)
  {
    var name := GoTrim(k.component);
    if name == "" || name !in catalog { return false; }
    var c := catalog[name];
    IndexedLookup(byName, holds, name);
    var hold := if name in byName then Some(byName[name]) else None;
    if k.release != c.release || !SourceOk(k.source, c) || k.executor.owner != "catalog-component" { return false; }
    if name == FOUNDATION && hold.Some? { return false; }
    if (k.executor.status, k.executor.profile) != ExpectedExecutor(name, c.resolved, hold.Some?) { return false; }
    ok := CheckStages(k.lifecycle, name, c.resolved, hold);
  }
}

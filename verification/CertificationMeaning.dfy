/** What a valid registry says: the catalog and the holds determine it. And when each transition succeeds in
    any registry at all, valid or not. */
module CertificationMeaning {
  import opened Collections
  import opened Text
  import opened Certification
  import opened CertificationSafety

  // ---- a valid registry is determined -------------------------------------------------------

  function ReadStages(stages: seq<Stage>): seq<Stage> {
    seq(|stages|, i requires 0 <= i < |stages| => stages[i].(evidence := GoTrim(stages[i].evidence)))
  }

  /** The contract as the validator reads it: white space around what it trims is immaterial. */
  function Read(k: Contract): Contract {
    k.(component := GoTrim(k.component), source := k.source.(digest := GoTrim(k.source.digest)),
       lifecycle := ReadStages(k.lifecycle))
  }

  lemma StagesAreDetermined(a: seq<Stage>, b: seq<Stage>, name: string, resolved: bool, hold: Option<Hold>)
    requires LifecycleOk(a, name, resolved, hold) && LifecycleOk(b, name, resolved, hold)
    ensures ReadStages(a) == ReadStages(b)
  {
    forall i | 0 <= i < |a| ensures ReadStages(a)[i] == ReadStages(b)[i] {
      assert StageOk(a[i], i, name, resolved, hold) && StageOk(b[i], i, name, resolved, hold);
    }
  }

  /** Nothing in a valid contract is free. */
  lemma ContractIsDetermined(a: Contract, b: Contract, holds: seq<Hold>, catalog: Catalog)
    requires ContractOk(a, holds, catalog) && ContractOk(b, holds, catalog)
    requires GoTrim(a.component) == GoTrim(b.component)
    ensures Read(a) == Read(b)
  {
    var name := GoTrim(a.component);
    StagesAreDetermined(a.lifecycle, b.lifecycle, name, catalog[name].resolved, HoldFor(holds, name));
  }

  /** Every catalog component has one contract, and every contract one catalog component. */
  lemma OneContractEach(r: Registry, catalog: Catalog, id: Header, name: string)
    requires ValidFor(r, catalog, id)
    ensures name in catalog <==> exists i | 0 <= i < |r.components| :: GoTrim(r.components[i].component) == name
    ensures forall i, j | 0 <= i < j < |r.components| ::
              GoTrim(r.components[i].component) != GoTrim(r.components[j].component)
  {
    var names := Names(r.components);
    if name in catalog {
      assert name in names;
      var i :| 0 <= i < |names| && names[i] == name;
      assert GoTrim(r.components[i].component) == name;
    }
    if i :| 0 <= i < |r.components| && GoTrim(r.components[i].component) == name {
      assert ContractOk(r.components[i], r.holds, catalog);
    }
    forall i, j | 0 <= i < j < |r.components|
      ensures GoTrim(r.components[i].component) != GoTrim(r.components[j].component)
    {
      assert names[i] != names[j];
    }
  }

  /** Two registries that are valid for the same catalog and have the same holds say the same, contract by
      contract, in whatever order they list them. */
  lemma RegistryIsDetermined(r: Registry, q: Registry, catalog: Catalog, id: Header, i: nat) returns (j: nat)
    requires ValidFor(r, catalog, id) && ValidFor(q, catalog, id) && r.holds == q.holds && i < |r.components|
    ensures |r.components| == |q.components| && r.header == q.header
    ensures j < |q.components| && Read(q.components[j]) == Read(r.components[i])
  {
    var name := GoTrim(r.components[i].component);
    OneContractEach(r, catalog, id, name);
    OneContractEach(q, catalog, id, name);
    j :| 0 <= j < |q.components| && GoTrim(q.components[j].component) == name;
    assert ContractOk(r.components[i], r.holds, catalog) && ContractOk(q.components[j], q.holds, catalog);
    ContractIsDetermined(r.components[i], q.components[j], r.holds, catalog);
  }

  /** Every hold of a valid registry is the only one on a component of the catalog other than the
      foundation, awaits a transition or a review, and names an authority, a reason and its evidence. */
  lemma HoldIsProper(r: Registry, catalog: Catalog, id: Header, h: nat)
    requires ValidFor(r, catalog, id) && h < |r.holds|
    ensures var hold, name := r.holds[h], GoTrim(r.holds[h].component);
            && name != "" && name in catalog && name != FOUNDATION
            && GoTrim(hold.status) in {"dependency-transition-required", "review-required"}
            && GoTrim(hold.authority) != "" && GoTrim(hold.reason) != "" && "https://" <= GoTrim(hold.evidenceURL)
    ensures forall g | 0 <= g < |r.holds| && g != h :: GoTrim(r.holds[g].component) != GoTrim(r.holds[h].component)
  {
    var name := GoTrim(r.holds[h].component);
    assert HoldOk(r.holds[h], catalog);
    OneContractEach(r, catalog, id, name);
    HoldForIs(r.holds, h);
    var i :| 0 <= i < |r.components| && GoTrim(r.components[i].component) == name;
    assert ContractOk(r.components[i], r.holds, catalog);
    forall g | 0 <= g < |r.holds| && g != h ensures GoTrim(r.holds[g].component) != name {
      assert HeldName(r.holds[if g < h then g else h]) != HeldName(r.holds[if g < h then h else g]);
    }
  }

  // ---- transitions in any registry ----------------------------------------------------------

  /** This contract is the first of its exact name. */
  predicate First(r: Registry, i: nat, name: string) {
    && i < |r.components| && r.components[i].component == name
    && forall j | 0 <= j < i :: r.components[j].component != name
  }

  lemma FirstIsFound(r: Registry, i: nat, name: string)
    ensures First(r, i, name) <==> Find(r.components, name) == i
  {
    var j := Find(r.components, name);
    assert First(r, i, name) && j >= 0 ==> r.components[j].component == name;
  }

  /** A registry is migrated exactly by the authority, between two distinct resolved sources of one named
      component, when the first contract of that name is ready and bound to the previous one. */
  lemma MigratesIff(r: Registry, previous: Component, target: Component, authority: string)
    ensures Migrate(r, previous, target, authority).Some?
            <==> && GoTrim(authority) == TRANSITION && previous.name != "" && previous.name == target.name
                 && previous.resolved && target.resolved
                 && GoTrim(previous.digest) != "" && GoTrim(target.digest) != ""
                 && previous.release != target.release && previous.digest != target.digest
                 && exists i: nat :: First(r, i, previous.name) && Ready(r, i)
                                     && r.components[i].release == previous.release
                                     && r.components[i].source.digest == previous.digest
  {
    var i := Find(r.components, previous.name);
    if i >= 0 { FirstIsFound(r, i, previous.name); }
    forall j: nat | First(r, j, previous.name) ensures j == i { FirstIsFound(r, j, previous.name); }
  }

  predicate Ready(r: Registry, i: nat) {
    i < |r.components| && r.components[i].source.resolved && r.components[i].source.status == "source-ready"
  }

  /** This hold is the only one of its exact name, and the authority's to release. */
  predicate OnlyHold(r: Registry, h: nat, name: string) {
    && h < |r.holds| && r.holds[h].component == name
    && r.holds[h].status == "dependency-transition-required" && r.holds[h].authority == TRANSITION
    && forall j | 0 <= j < |r.holds| && j != h :: r.holds[j].component != name
  }

  lemma OnlyHoldIsFound(r: Registry, h: nat, name: string)
    ensures OnlyHold(r, h, name) <==> ReleasableHold(r.holds, name, TRANSITION) == h
  {
    if OnlyHold(r, h, name) { assert Releasable(r.holds[h], TRANSITION); }
  }

  /** A hold is released exactly by the authority, when it is the only one of its exact name and the first
      contract of that name is ready, has a digest and is held. */
  lemma ReleasesIff(r: Registry, component: string, authority: string)
    ensures Release(r, component, authority).Some?
            <==> && GoTrim(authority) == TRANSITION && GoTrim(component) != ""
                 && (exists h: nat :: OnlyHold(r, h, GoTrim(component)))
                 && exists i: nat :: First(r, i, GoTrim(component)) && Ready(r, i)
                                     && GoTrim(r.components[i].source.digest) != ""
                                     && r.components[i].executor.status == "runtime-suitability-held"
  {
    var name := GoTrim(component);
    var i, h := Find(r.components, name), ReleasableHold(r.holds, name, TRANSITION);
    if i >= 0 { FirstIsFound(r, i, name); }
    if h >= 0 { OnlyHoldIsFound(r, h, name); }
    forall j: nat | First(r, j, name) ensures j == i { FirstIsFound(r, j, name); }
    forall j: nat | OnlyHold(r, j, name) ensures j == h { OnlyHoldIsFound(r, j, name); }
  }
}

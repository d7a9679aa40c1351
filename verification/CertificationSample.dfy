/** Registries of one contract on which the validator and the transitions part: a hold with a padded name
    breaks Rebind and Migrate, and a foundation contract with a padded name breaks Rebind. */
module CertificationSample {
  import opened Collections
  import opened Text
  import opened Certification
  import opened CertificationSafety

  // ---- a valid registry of one contract -----------------------------------------------------

  function Evidence(stage: string): string { "component-" + stage + "-evidence/v1" }

  /** The stages the validator expects. */
  function StagesFor(name: string, resolved: bool, hold: Option<Hold>): seq<Stage> {
    seq(|STAGES|, i requires 0 <= i < |STAGES| =>
      var expected := ExpectedStage(name, STAGES[i], resolved, hold);
      Stage(STAGES[i], expected.0, Evidence(STAGES[i]), expected.1))
  }

  /** The contract the validator expects of a component, under this spelling of its name. */
  function ContractFor(spelt: string, name: string, c: Component, hold: Option<Hold>): Contract {
    var expected := ExpectedExecutor(name, c.resolved, hold.Some?);
    Contract(spelt, c.release,
             SourceBinding(if c.resolved then "source-ready" else "blocked-source-lock", c.resolved, c.digest),
             Executor(expected.0, expected.1, "catalog-component"),
             StagesFor(name, c.resolved, hold))
  }

  function RegistryFor(spelt: string, name: string, c: Component, holds: seq<Hold>, id: Header): Registry {
    Registry(id, holds, [ContractFor(spelt, name, c, HoldFor(holds, name))])
  }

  lemma EvidenceTight(stage: string)
    ensures GoTrim(Evidence(stage)) == Evidence(stage)
  {
    var s := Evidence(stage);
    assert s[0] == 'c' && s[|s| - 1] == '1';
    TrimTight(s, IsGoSpace);
  }

  lemma StagesForOk(name: string, resolved: bool, hold: Option<Hold>)
    ensures LifecycleOk(StagesFor(name, resolved, hold), name, resolved, hold)
  {
    var stages := StagesFor(name, resolved, hold);
    forall i | 0 <= i < |stages| ensures StageOk(stages[i], i, name, resolved, hold) {
      EvidenceTight(STAGES[i]);
    }
  }

  lemma OneIsValid(spelt: string, name: string, c: Component, holds: seq<Hold>, id: Header)
    requires GoTrim(spelt) == name && name != "" && (if c.resolved then GoTrim(c.digest) != "" else c.digest == "")
    requires HoldsOk(holds, map[name := c]) && (name == FOUNDATION ==> HoldFor(holds, name).None?)
    ensures ValidFor(RegistryFor(spelt, name, c, holds, id), map[name := c], id)
  {
    StagesForOk(name, c.resolved, HoldFor(holds, name));
    TrimTight("", IsGoSpace);
    var r := RegistryFor(spelt, name, c, holds, id);
    assert Names(r.components) == [name];
    assert name in [name];
    assert ContractOk(r.components[0], holds, map[name := c]);
  }

  // ---- holds and components -----------------------------------------------------------------

  function HoldOn(name: string): Hold { Hold(name, "review-required", "a", "r", "https://") }

  lemma HoldOnOk(spelt: string, name: string, c: Component)
    requires GoTrim(spelt) == name && name != ""
    ensures HoldsOk([HoldOn(spelt)], map[name := c])
    ensures HoldFor([HoldOn(spelt)], name) == Some(HoldOn(spelt))
  {
    TrimTight("review-required", IsGoSpace);
    TrimTight("a", IsGoSpace);
    TrimTight("r", IsGoSpace);
    TrimTight("https://", IsGoSpace);
  }

  function Unresolved(name: string): Component { Component(name, "1", false, "") }

  function Resolved(name: string, release: string, digest: string): Component {
    Component(name, release, true, digest)
  }

  lemma OneLetter(s: string)
    requires |s| == 1 && !IsGoSpace(s[0])
    ensures GoTrim(s) == s
  {
    TrimTight(s, IsGoSpace);
  }

  // ---- where they part ----------------------------------------------------------------------

  /** A valid registry with a hold on the unbound component `n`; with the hold spelt `n ` it is still valid,
      and a successful Rebind of the component leaves it invalid. */
  lemma PaddedHoldRegistry(id: Header) returns (p: Registry, catalog: Catalog, c: Component)
    ensures |p.components| == 1 && p.components[0].component == "n" && p.holds == [HoldOn("n" + " ")]
    ensures ValidFor(p, catalog, id) && Rebind(p, c).Some? && !ValidFor(Rebind(p, c).value, catalog[c.name := c], id)
  {
    OneLetter("n");
    OneLetter("d");
    catalog, c := map["n" := Unresolved("n")], Resolved("n", "1", "d");
    HoldOnOk("n", "n", Unresolved("n"));
    OneIsValid("n", "n", Unresolved("n"), [HoldOn("n")], id);
    var r := RegistryFor("n", "n", Unresolved("n"), [HoldOn("n")], id);
    p := PaddedHoldBreaksRebind(r, catalog, c, 0, id);
  }

  /** The component `n`, bound and held by a hold spelt `n `: valid, and a successful Migrate to the next
      release leaves it invalid. */
  lemma PaddedHoldMigration(id: Header) returns (r: Registry, catalog: Catalog, previous: Component, target: Component)
    ensures |r.components| == 1 && r.components[0].component == "n" && r.holds == [HoldOn("n" + " ")]
    ensures ValidFor(r, catalog, id) && Migrate(r, previous, target, TRANSITION).Some?
    ensures !ValidFor(Migrate(r, previous, target, TRANSITION).value, catalog[target.name := target], id)
  {
    OneLetter("n");
    OneLetter("d");
    OneLetter("e");
    TrimPadded("n");
    previous, target := Resolved("n", "1", "d"), Resolved("n", "2", "e");
    catalog, r := map["n" := previous], RegistryFor("n", "n", previous, [HoldOn("n" + " ")], id);
    HoldOnOk("n" + " ", "n", previous);
    OneIsValid("n", "n", previous, [HoldOn("n" + " ")], id);
    MigrationHappens(r, previous, target);
    RawHoldFound(r.holds, "n");
    MigrateValidIff(r, catalog, previous, target, TRANSITION, id);
  }

  lemma MigrationHappens(r: Registry, previous: Component, target: Component)
    requires previous == Resolved("n", "1", "d") && target == Resolved("n", "2", "e")
    requires |r.components| == 1 && r.components[0].component == "n" && BoundTo(r.components[0], previous)
    ensures Migrate(r, previous, target, TRANSITION).Some?
  {
    OneLetter("d");
    OneLetter("e");
    TrimTight(TRANSITION, IsGoSpace);
  }

  /** The foundation contract with a padded name: valid, and a successful Rebind, which does not recognise
      the foundation, leaves it invalid. */
  lemma MisspeltFoundation(id: Header) returns (r: Registry, catalog: Catalog, c: Component)
    ensures |r.components| == 1 && r.components[0].component == FOUNDATION + " " && r.holds == []
    ensures ValidFor(r, catalog, id) && Rebind(r, c).Some?
    ensures !ValidFor(Rebind(r, c).value, catalog[GoTrim(c.name) := c], id)
  {
    var spelt := FOUNDATION + " ";
    TrimTight(FOUNDATION, IsGoSpace);
    TrimPadded(FOUNDATION);
    OneLetter("d");
    catalog, c := map[FOUNDATION := Unresolved(FOUNDATION)], Resolved(spelt, "1", "d");
    OneIsValid(spelt, FOUNDATION, Unresolved(FOUNDATION), [], id);
    r := RegistryFor(spelt, FOUNDATION, Unresolved(FOUNDATION), [], id);
    assert spelt != FOUNDATION;
    RebindValidIff(r, catalog, c, id);
  }
}

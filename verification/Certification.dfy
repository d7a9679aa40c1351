/** The component runtime certification registry of catalog/runtime_certification_registry.go: its
    validity, and its three in-place transitions as functions on the registry's value. */
module Certification {
  import opened Collections
  import opened Text

  datatype SourceBinding = SourceBinding(status: string, resolved: bool, digest: string)
  datatype Hold = Hold(component: string, status: string, authority: string, reason: string, evidenceURL: string)
  datatype Executor = Executor(status: string, profile: string, owner: string)
  datatype Stage = Stage(name: string, status: string, evidence: string, authority: string)
  datatype Contract = Contract(component: string, release: string, source: SourceBinding, executor: Executor,
                               lifecycle: seq<Stage>)
  datatype Policy = Policy(sourceBinding: string, executorBinding: string, stages: seq<string>, replacement: string,
                           suitability: string, closure: string, holdSemantics: string)

  /** What the registry looks at in a catalog component. */
  datatype Component = Component(name: string, release: string, resolved: bool, digest: string)

  type Catalog = map<string, Component>

  /** The registry's identity and policy. */
  datatype Header = Header(apiVersion: string, kind: string, name: string, policy: Policy)

  datatype Registry = Registry(header: Header, holds: seq<Hold>, components: seq<Contract>)

  const FOUNDATION := "secure-namespace-foundation"
  const TRANSITION := "RUNTIME_DEPENDENCY_TRANSITION_V1"
  const PARTIAL := "component-install-readiness-dependency-failure-remove-partial"
  const HELD := "runtime-suitability-held"
  const STAGES := ["install", "readiness", "dependency", "upgrade", "remove", "failure"]

  // ---- validity -----------------------------------------------------------------------------

  /** The one identity and policy the validator accepts. Nothing else depends on it. */
  const IDENTITY := Header("platform.4so.io/v1alpha1",
                           "ComponentRuntimeCertificationRegistry",
                           "COMPONENT_RUNTIME_CERTIFICATION_REGISTRY_V1",
                           Policy("exact-component-release-and-source-lock",
                                  "component-owned-no-generic-runtime-certification-claim",
                                  STAGES,
                                  "resolved-source-replacement-denied-without-explicit-versioned-migration",
                                  "persistent-independent-of-source-acquisition",
                                  "mandatory-components-only",
                                  "profile-blocking-not-core-freeze-blocking"))

  predicate HoldOk(h: Hold, catalog: Catalog) {
    && GoTrim(h.component) != "" && GoTrim(h.component) in catalog
    && (GoTrim(h.status) == "dependency-transition-required" || GoTrim(h.status) == "review-required")
    && GoTrim(h.authority) != "" && GoTrim(h.reason) != "" && "https://" <= GoTrim(h.evidenceURL)
  }

  function HeldName(h: Hold): string { GoTrim(h.component) }

  predicate HoldsDistinct(holds: seq<Hold>) {
    KeysDistinct(holds, HeldName)
  }

  /** The hold the validator finds for a component: by trimmed name. */
  function HoldFor(holds: seq<Hold>, name: string): Option<Hold> {
    if holds == [] then None
    else if GoTrim(holds[0].component) == name then Some(holds[0])
    else HoldFor(holds[1..], name)
  }

  function ExpectedExecutor(name: string, resolved: bool, held: bool): (string, string) {
    if name == FOUNDATION then ("foundation-harness-partial", "TARGET_RUNTIME_V1")
    else if !resolved then ("source-gated-component-executor", "COMPONENT_RUNTIME_V1")
    else if held then (HELD, "COMPONENT_RUNTIME_V1")
    else (PARTIAL, "COMPONENT_RUNTIME_V1")
  }

  function ExpectedStage(name: string, stage: string, resolved: bool, hold: Option<Hold>): (string, string) {
    if name == FOUNDATION then
      if stage == "install" || stage == "readiness" || stage == "dependency"
      then ("foundation-harness-executable", "TARGET_RUNTIME_V1")
      else if stage == "upgrade" then ("not-applicable-first-product-release", "COMPONENT_UPGRADE_SOURCE_ADMISSION_V1")
      else ("pending-component-executor", "COMPONENT_RUNTIME_EXECUTOR_V1")
    else if resolved && hold.Some? then ("pending-runtime-suitability", hold.value.authority)
    else if stage == "upgrade" then ("pending-upgrade-matrix", "COMPONENT_RUNTIME_UPGRADE_V1")
    else if resolved then ("component-runtime-executable", "COMPONENT_RUNTIME_V1")
    else ("source-gated-component-executor", "COMPONENT_RUNTIME_V1")
  }

  predicate SourceOk(b: SourceBinding, c: Component) {
    && b.resolved == c.resolved
    && (if c.resolved then b.status == "source-ready" && GoTrim(c.digest) != "" && GoTrim(b.digest) == GoTrim(c.digest)
        else b.status == "blocked-source-lock" && GoTrim(b.digest) == "")
  }

  predicate StageOk(s: Stage, i: nat, name: string, resolved: bool, hold: Option<Hold>)
    requires i < |STAGES|
  {
    && s.name == STAGES[i]
    && GoTrim(s.evidence) == "component-" + s.name + "-evidence/v1"
    && (s.status, s.authority) == ExpectedStage(name, s.name, resolved, hold)
  }

  predicate LifecycleOk(stages: seq<Stage>, name: string, resolved: bool, hold: Option<Hold>) {
    |stages| == |STAGES| && forall i | 0 <= i < |stages| :: StageOk(stages[i], i, name, resolved, hold)
  }

  /** One contract against the catalog component of its trimmed name and the hold on it. */
  predicate ContractOk(k: Contract, holds: seq<Hold>, catalog: Catalog) {
    var name := GoTrim(k.component);
    && name != "" && name in catalog
    && var c, hold := catalog[name], HoldFor(holds, name);
       && k.release == c.release
       && SourceOk(k.source, c)
       && k.executor.owner == "catalog-component"
       && (name == FOUNDATION ==> hold.None?)
       && (k.executor.status, k.executor.profile) == ExpectedExecutor(name, c.resolved, hold.Some?)
       && LifecycleOk(k.lifecycle, name, c.resolved, hold)
  }

  /** The names the validator keys contracts by. */
  function Names(ks: seq<Contract>): seq<string> {
    seq(|ks|, i requires 0 <= i < |ks| => GoTrim(ks[i].component))
  }

  /** Every catalog component is named exactly once. */
  predicate Covers(names: seq<string>, catalog: Catalog) {
    && |names| == |catalog|
    && (forall i, j | 0 <= i < j < |names| :: names[i] != names[j])
    && (forall name | name in catalog :: name in names)
  }

  predicate HoldsOk(holds: seq<Hold>, catalog: Catalog) {
    HoldsDistinct(holds) && forall i | 0 <= i < |holds| :: HoldOk(holds[i], catalog)
  }

  predicate ContractsOk(ks: seq<Contract>, holds: seq<Hold>, catalog: Catalog) {
    forall i | 0 <= i < |ks| :: ContractOk(ks[i], holds, catalog)
  }

  /** `ValidateComponentRuntimeCertificationRegistry` accepts, when it insists on this identity. */
  predicate ValidFor(r: Registry, catalog: Catalog, id: Header) {
    && r.header == id
    && HoldsOk(r.holds, catalog)
    && ContractsOk(r.components, r.holds, catalog)
    && Covers(Names(r.components), catalog)
  }

  // ---- the transitions ----------------------------------------------------------------------

  /** The first contract with exactly this name, or -1. */
  function Find(ks: seq<Contract>, name: string): (i: int)
    ensures -1 <= i < |ks|
    ensures i >= 0 ==> ks[i].component == name
    ensures i < 0 ==> forall j | 0 <= j < |ks| :: ks[j].component != name
    ensures forall j | 0 <= j < i :: ks[j].component != name
  {
    if ks == [] then -1
    else if ks[0].component == name then 0
    else var j := Find(ks[1..], name); if j < 0 then -1 else j + 1
  }

  /** The hold the transitions find: by exact name, the last one listed. */
  function RawHold(holds: seq<Hold>, name: string): Option<Hold> {
    if holds == [] then None
    else if holds[|holds| - 1].component == name then Some(holds[|holds| - 1])
    else RawHold(holds[..|holds| - 1], name)
  }

  function Gated(s: Stage, hold: Option<Hold>): Stage {
    if hold.Some? then s.(status := "pending-runtime-suitability", authority := hold.value.authority)
    else if s.name == "upgrade" then s.(status := "pending-upgrade-matrix", authority := "COMPONENT_RUNTIME_UPGRADE_V1")
    else s.(status := "component-runtime-executable", authority := "COMPONENT_RUNTIME_V1")
  }

  function GatedAll(stages: seq<Stage>, hold: Option<Hold>): seq<Stage> {
    seq(|stages|, i requires 0 <= i < |stages| => Gated(stages[i], hold))
  }

  /** The executor and stages of a component whose source is resolved. */
  function Promoted(k: Contract, hold: Option<Hold>): Contract {
    k.(executor := k.executor.(status := if hold.Some? then HELD else PARTIAL, profile := "COMPONENT_RUNTIME_V1"),
       lifecycle := GatedAll(k.lifecycle, hold))
  }

  function Bound(k: Contract, c: Component, holds: seq<Hold>): Contract {
    var k1 := k.(release := c.release, source := SourceBinding("source-ready", true, c.digest));
    if k.component != FOUNDATION then Promoted(k1, RawHold(holds, k.component)) else k1
  }

  /** `RebindComponentRuntimeCertificationSource`; `None` is an error. */
  function Rebind(r: Registry, c: Component): Option<Registry> {
    var i := Find(r.components, c.name);
    if i < 0 then None
    else
      var k := r.components[i];
      if !c.resolved || GoTrim(c.digest) == "" then None
      else if k.source.resolved then
        if k.release != c.release || k.source.digest != c.digest then None else Some(r)
      else Some(r.(components := r.components[i := Bound(k, c, r.holds)]))
  }

  predicate MigrationAllowed(previous: Component, target: Component, authority: string) {
    && GoTrim(authority) == TRANSITION
    && previous.name != "" && previous.name == target.name
    && previous.resolved && target.resolved && GoTrim(previous.digest) != "" && GoTrim(target.digest) != ""
    && previous.release != target.release && previous.digest != target.digest
  }

  predicate BoundTo(k: Contract, c: Component) {
    k.release == c.release && k.source.resolved && k.source.status == "source-ready" && k.source.digest == c.digest
  }

  /** `MigrateComponentRuntimeCertificationSource`. */
  function Migrate(r: Registry, previous: Component, target: Component, authority: string): Option<Registry> {
    if !MigrationAllowed(previous, target, authority) then None
    else
      var i := Find(r.components, previous.name);
      if i < 0 || !BoundTo(r.components[i], previous) then None
      else Some(r.(components := r.components[i := Bound(r.components[i], target, r.holds)]))
  }

  predicate Releasable(h: Hold, authority: string) {
    h.status == "dependency-transition-required" && h.authority == authority
  }

  /** The index of the only hold with exactly this name if it may be released; -1 otherwise. */
  function ReleasableHold(holds: seq<Hold>, name: string, authority: string): (i: int)
    ensures -1 <= i < |holds|
    ensures i >= 0 ==> holds[i].component == name && Releasable(holds[i], authority)
    ensures i >= 0 ==> forall j | 0 <= j < |holds| && j != i :: holds[j].component != name
  {
    if i: nat :| i < |holds| && holds[i].component == name && Releasable(holds[i], authority)
                 && forall j | 0 <= j < |holds| && j != i :: holds[j].component != name
    then i else -1
  }

  predicate ReadyToRelease(k: Contract) {
    k.source.resolved && k.source.status == "source-ready" && GoTrim(k.source.digest) != "" && k.executor.status == HELD
  }

  function Without(holds: seq<Hold>, h: nat): seq<Hold>
    requires h < |holds|
  {
    holds[..h] + holds[h + 1..]
  }

  /** `ReleaseComponentRuntimeSuitabilityHold`. */
  function Release(r: Registry, component: string, authority: string): Option<Registry> {
    var name, auth := GoTrim(component), GoTrim(authority);
    if name == "" || auth != TRANSITION then None
    else
      var h := ReleasableHold(r.holds, name, auth);
      var i := Find(r.components, name);
      if h < 0 || i < 0 || !ReadyToRelease(r.components[i]) then None
      else Some(r.(holds := Without(r.holds, h),
                   components := r.components[i := Promoted(r.components[i], None)]))
  }
}

/** The registry over whole runs of its transitions, and its statistics. */
module CertificationRuns {
  import opened Collections
  import opened Text
  import opened Certification
  import opened CertificationSafety

  datatype Op =
    | RebindOp(c: Component)
    | MigrateOp(previous: Component, target: Component, authority: string)
    | ReleaseOp(component: string, authority: string)

  function Try(r: Registry, op: Op): Option<Registry> {
    match op
    case RebindOp(c) => Rebind(r, c)
    case MigrateOp(previous, target, authority) => Migrate(r, previous, target, authority)
    case ReleaseOp(component, authority) => Release(r, component, authority)
  }

  /** A call that fails changes nothing. */
  function Apply(r: Registry, op: Op): Registry {
    var t := Try(r, op);
    if t.Some? then t.value else r
  }

  function Run(r: Registry, ops: seq<Op>): Registry
    decreases |ops|
  {
    if ops == [] then r else Run(Apply(r, ops[0]), ops[1..])
  }

  /** The catalog the caller holds after a call: updated where a source was bound or migrated. */
  function CatalogAfterOne(catalog: Catalog, r: Registry, op: Op): Catalog {
    if Try(r, op).None? then catalog
    else match op
         case RebindOp(c) => catalog[GoTrim(c.name) := c]
         case MigrateOp(_, target, _) => catalog[GoTrim(target.name) := target]
         case ReleaseOp(_, _) => catalog
  }

  function CatalogAfter(catalog: Catalog, r: Registry, ops: seq<Op>): Catalog
    decreases |ops|
  {
    if ops == [] then catalog
    else CatalogAfter(CatalogAfterOne(catalog, r, ops[0]), Apply(r, ops[0]), ops[1..])
  }

  /** Every name in the registry is written without surrounding white space. */
  predicate TrimStable(r: Registry) {
    && (forall i | 0 <= i < |r.components| :: GoTrim(r.components[i].component) == r.components[i].component)
    && (forall i | 0 <= i < |r.holds| :: GoTrim(r.holds[i].component) == r.holds[i].component)
  }

  lemma StableKeysAgree(r: Registry, i: nat)
    requires TrimStable(r) && i < |r.components|
    ensures KeysAgree(r.holds, r.components[i].component)
  {
    var name := r.components[i].component;
    HoldForFound(r.holds, GoTrim(name));
    RawHoldFound(r.holds, name);
    if HoldFor(r.holds, GoTrim(name)).Some? {
      var h :| 0 <= h < |r.holds| && GoTrim(r.holds[h].component) == GoTrim(name);
      assert r.holds[h].component == name;
    }
  }

  /** The call is a migration of this component that carries the transition authority. */
  predicate MigratesNow(op: Op, name: string) {
    op.MigrateOp? && op.previous.name == name && GoTrim(op.authority) == TRANSITION
  }

  /** What one call leaves in place: the contracts and their names, and every binding but the one an
      authorized migration names; an unresolved source may become resolved, never the other way. */
  lemma ApplyFrame(r: Registry, op: Op, j: nat)
    requires j < |r.components|
    ensures var r' := Apply(r, op);
            && |r'.components| == |r.components|
            && r'.components[j].component == r.components[j].component
            && (r.components[j].source.resolved ==> r'.components[j].source.resolved)
            && (r.components[j].source.resolved && !MigratesNow(op, r.components[j].component) ==>
                  && r'.components[j].source == r.components[j].source
                  && r'.components[j].release == r.components[j].release)
  {
    if Try(r, op).Some? {
      match op
      case RebindOp(c) => var i, k' := RebindShape(r, c);
      case MigrateOp(_, _, _) =>
      case ReleaseOp(component, authority) => var i, h := ReleaseShape(r, component, authority);
    }
  }

  lemma ApplyKeepsHoldNames(r: Registry, op: Op)
    requires TrimStable(r)
    ensures var holds := Apply(r, op).holds;
            forall j | 0 <= j < |holds| :: GoTrim(holds[j].component) == holds[j].component
  {
    var r' := Apply(r, op);
    if op.ReleaseOp? && Try(r, op).Some? {
      var i, h := ReleaseShape(r, op.component, op.authority);
      forall j | 0 <= j < |r'.holds| ensures GoTrim(r'.holds[j].component) == r'.holds[j].component {
        assert r'.holds[j] == r.holds[if j < h then j else j + 1];
      }
    }
  }

  lemma ApplyKeepsLength(r: Registry, op: Op)
    ensures |Apply(r, op).components| == |r.components|
  {
  }

  lemma ApplyKeepsStable(r: Registry, op: Op)
    requires TrimStable(r)
    ensures TrimStable(Apply(r, op))
  {
    var r' := Apply(r, op);
    ApplyKeepsLength(r, op);
    ApplyKeepsHoldNames(r, op);
    forall i | 0 <= i < |r'.components| ensures GoTrim(r'.components[i].component) == r'.components[i].component {
      ApplyFrame(r, op, i);
    }
  }

  lemma ApplyKeepsValid(r: Registry, catalog: Catalog, op: Op, id: Header)
    requires ValidFor(r, catalog, id) && TrimStable(r)
    ensures ValidFor(Apply(r, op), CatalogAfterOne(catalog, r, op), id)
  {
    if Try(r, op).Some? {
      match op
      case RebindOp(c) =>
        RebindValidIff(r, catalog, c, id);
        StableKeysAgree(r, Find(r.components, c.name));
      case MigrateOp(previous, target, authority) =>
        MigrateValidIff(r, catalog, previous, target, authority, id);
        StableKeysAgree(r, Find(r.components, previous.name));
      case ReleaseOp(component, authority) => ReleaseKeepsValid(r, catalog, component, authority, id);
    }
  }

  /** The registry invariant: with trim-stable names a valid registry stays valid, for the catalog as
      updated, over every run of calls, failing ones included. */
  lemma {:induction false} RunKeepsValid(r: Registry, catalog: Catalog, ops: seq<Op>, id: Header)
    requires ValidFor(r, catalog, id) && TrimStable(r)
    ensures ValidFor(Run(r, ops), CatalogAfter(catalog, r, ops), id) && TrimStable(Run(r, ops))
    decreases |ops|
  {
    if ops == [] {
    } else {
      ApplyKeepsValid(r, catalog, ops[0], id);
      ApplyKeepsStable(r, ops[0]);
      RunKeepsValid(Apply(r, ops[0]), CatalogAfterOne(catalog, r, ops[0]), ops[1..], id);
    }
  }

  predicate Migrates(ops: seq<Op>, name: string) {
    exists op | op in ops :: MigratesNow(op, name)
  }

  /** History: over any run a resolved source stays resolved, and its release and digest are those of
      the start unless the run migrates that very component with the transition authority. */
  lemma {:induction false} ResolvedForGood(r: Registry, ops: seq<Op>, j: nat)
    requires j < |r.components| && r.components[j].source.resolved
    ensures var r' := Run(r, ops);
            && |r'.components| == |r.components|
            && r'.components[j].component == r.components[j].component
            && r'.components[j].source.resolved
            && (!Migrates(ops, r.components[j].component) ==>
                  && r'.components[j].source == r.components[j].source
                  && r'.components[j].release == r.components[j].release)
    decreases |ops|
  {
    if ops == [] {
    } else {
      ApplyFrame(r, ops[0], j);
      ResolvedForGood(Apply(r, ops[0]), ops[1..], j);
      var name := r.components[j].component;
      if !Migrates(ops, name) {
        assert ops[0] in ops;
        assert forall op | op in ops[1..] :: op in ops;
      }
    }
  }

  lemma {:induction false} NamesForGood(r: Registry, ops: seq<Op>)
    ensures var r' := Run(r, ops);
            && |r'.components| == |r.components|
            && forall j | 0 <= j < |r.components| :: r'.components[j].component == r.components[j].component
    decreases |ops|
  {
    if ops == [] {
    } else {
      var r1 := Apply(r, ops[0]);
      NamesForGood(r1, ops[1..]);
      forall j | 0 <= j < |r.components|
        ensures |r1.components| == |r.components| && r1.components[j].component == r.components[j].component
      {
        ApplyFrame(r, ops[0], j);
      }
      if |r.components| == 0 { NothingToChange(r, ops[0]); }
    }
  }

  lemma NothingToChange(r: Registry, op: Op)
    requires r.components == []
    ensures Apply(r, op) == r
  {
  }

  /** A migration once done is refused as long as no other authorized migration of the component intervenes. */
  lemma ReplayRefused(r: Registry, previous: Component, target: Component, authority: string, ops: seq<Op>)
    requires Migrate(r, previous, target, authority).Some? && !Migrates(ops, previous.name)
    ensures var later := Run(Migrate(r, previous, target, authority).value, ops);
            Migrate(later, previous, target, authority).None?
  {
    var r1 := Migrate(r, previous, target, authority).value;
    var i := Find(r.components, previous.name);
    FindAfterUpdate(r.components, i, r1.components[i]);
    ResolvedForGood(r1, ops, i);
    NamesForGood(r1, ops);
    var later := Run(r1, ops);
    SameNamesSameFind(r1.components, later.components, previous.name);
  }

  lemma SameNamesSameFind(a: seq<Contract>, b: seq<Contract>, name: string)
    requires |a| == |b| && forall j | 0 <= j < |a| :: a[j].component == b[j].component
    ensures Find(a, name) == Find(b, name)
  {
    var i, j := Find(a, name), Find(b, name);
    assert i >= 0 ==> b[i].component == name;
    assert j >= 0 ==> a[j].component == name;
  }

  // ---- statistics ---------------------------------------------------------------------------

  function Count(ks: seq<Contract>, p: Contract -> bool): nat {
    if ks == [] then 0 else Count(ks[..|ks| - 1], p) + (if p(ks[|ks| - 1]) then 1 else 0)
  }

  predicate SourceReady(k: Contract) { k.source.resolved && k.source.status == "source-ready" }

  predicate Complete(k: Contract) {
    forall i | 0 <= i < |k.lifecycle| :: k.lifecycle[i].status == "component-runtime-certified"
  }

  datatype Bucket =
    | Foundation | ReadinessPartial | DependencyPartial | FailureRemovePartial | SourceGated | Pending | Uncounted

  function BucketOf(status: string): Bucket {
    if status == "foundation-harness-partial" then Foundation
    else if status == "component-install-readiness-partial" then ReadinessPartial
    else if status == "component-install-readiness-dependency-partial" then DependencyPartial
    else if status == PARTIAL then FailureRemovePartial
    else if status == "source-gated-component-executor" then SourceGated
    else if status == "pending-component-executor" then Pending
    else Uncounted
  }

  function In(b: Bucket): Contract -> bool {
    (k: Contract) => BucketOf(k.executor.status) == b
  }

  datatype Stats = Stats(total: nat, sourceReady: nat, sourceBlocked: nat, foundation: nat, readiness: nat,
                         dependency: nat, failureRemove: nat, gated: nat, pending: nat, complete: nat)

  /** The counters, each for what it counts. */
  predicate Counted(s: Stats, ks: seq<Contract>) {
    && s.sourceReady == Count(ks, SourceReady)
    && s.sourceReady + s.sourceBlocked == |ks|
    && s.foundation == Count(ks, In(Foundation))
    && s.readiness == Count(ks, In(ReadinessPartial))
    && s.dependency == Count(ks, In(DependencyPartial))
    && s.failureRemove == Count(ks, In(FailureRemovePartial))
    && s.gated == Count(ks, In(SourceGated))
    && s.pending == Count(ks, In(Pending))
    && s.complete == Count(ks, Complete)
  }

  method LifecycleComplete(k: Contract) returns (complete: bool)
    ensures complete <==> Complete(k)
  {
    complete := true;
    for i := 0 to |k.lifecycle|
      invariant complete && forall j | 0 <= j < i :: k.lifecycle[j].status == "component-runtime-certified"
    {
      if k.lifecycle[i].status != "component-runtime-certified" { return false; }
    }
  }

  function One(b: bool): nat { if b then 1 else 0 }

  /** The counters after one more contract, whose executor status falls into this bucket. */
  predicate CountedOne(s: Stats, s': Stats, k: Contract, b: Bucket) {
    && s'.total == s.total
    && s'.sourceReady == s.sourceReady + One(SourceReady(k))
    && s'.sourceBlocked == s.sourceBlocked + One(!SourceReady(k))
    && s'.foundation == s.foundation + One(b == Foundation)
    && s'.readiness == s.readiness + One(b == ReadinessPartial)
    && s'.dependency == s.dependency + One(b == DependencyPartial)
    && s'.failureRemove == s.failureRemove + One(b == FailureRemovePartial)
    && s'.gated == s.gated + One(b == SourceGated)
    && s'.pending == s.pending + One(b == Pending)
    && s'.complete == s.complete + One(Complete(k))
  }

  method CountBucket(s: Stats, b: Bucket) returns (s': Stats)
    ensures s' == s.(foundation := s.foundation + One(b == Foundation),
                     readiness := s.readiness + One(b == ReadinessPartial),
                     dependency := s.dependency + One(b == DependencyPartial),
                     failureRemove := s.failureRemove + One(b == FailureRemovePartial),
                     gated := s.gated + One(b == SourceGated),
                     pending := s.pending + One(b == Pending))
  {
    match b
    case Foundation => s' := s.(foundation := s.foundation + 1);
    case ReadinessPartial => s' := s.(readiness := s.readiness + 1);
    case DependencyPartial => s' := s.(dependency := s.dependency + 1);
    case FailureRemovePartial => s' := s.(failureRemove := s.failureRemove + 1);
    case SourceGated => s' := s.(gated := s.gated + 1);
    case Pending => s' := s.(pending := s.pending + 1);
    case Uncounted => s' := s;
  }

  method CountContract(s: Stats, k: Contract, b: Bucket) returns (s': Stats)
    ensures CountedOne(s, s', k, b)
  {
    s' := CountBucket(s, b);
    if k.source.resolved && k.source.status == "source-ready" {
      s' := s'.(sourceReady := s'.sourceReady + 1);
    } else {
      s' := s'.(sourceBlocked := s'.sourceBlocked + 1);
    }
    var complete := LifecycleComplete(k);
    if complete { s' := s'.(complete := s'.complete + 1); }
  }

  lemma CountStep(ks: seq<Contract>, n: nat, p: Contract -> bool)
    requires n < |ks|
    ensures Count(ks[..n + 1], p) == Count(ks[..n], p) + One(p(ks[n]))
  {
    assert ks[..n + 1][..n] == ks[..n];
  }

  lemma CountedStep(s: Stats, s': Stats, ks: seq<Contract>, n: nat)
    requires n < |ks| && Counted(s, ks[..n]) && CountedOne(s, s', ks[n], BucketOf(ks[n].executor.status))
    ensures Counted(s', ks[..n + 1])
  {
    CountStep(ks, n, SourceReady);
    CountStep(ks, n, Complete);
    forall b: Bucket ensures Count(ks[..n + 1], In(b)) == Count(ks[..n], In(b)) + One(In(b)(ks[n])) {
      CountStep(ks, n, In(b));
    }
  }

  /** `ComponentRuntimeCertificationStatistics`. */
  method Statistics(ks: seq<Contract>) returns (s: Stats)
    ensures s.total == |ks| && Counted(s, ks)
  {
    s := Stats(|ks|, 0, 0, 0, 0, 0, 0, 0, 0, 0);
    for n := 0 to |ks|
      invariant s.total == |ks| && Counted(s, ks[..n])
    {
      var s' := CountContract(s, ks[n], BucketOf(ks[n].executor.status));
      CountedStep(s, s', ks, n);
      s := s';
    }
    assert ks[..|ks|] == ks;
  }

  lemma {:induction false} CountNone(ks: seq<Contract>, p: Contract -> bool)
    requires forall k | k in ks :: !p(k)
    ensures Count(ks, p) == 0
  {
    if ks == [] {
    } else {
      CountNone(ks[..|ks| - 1], p);
    }
  }

  lemma {:induction false} CountSame(ks: seq<Contract>, p: Contract -> bool, q: Contract -> bool)
    requires forall k | k in ks :: p(k) == q(k)
    ensures Count(ks, p) == Count(ks, q)
  {
    if ks == [] {
    } else {
      CountSame(ks[..|ks| - 1], p, q);
    }
  }

  predicate OneOf(a: bool, b: bool, c: bool, d: bool) {
    One(a) + One(b) + One(c) + One(d) == 1
  }

  lemma {:induction false} CountParts(ks: seq<Contract>, a: Contract -> bool, b: Contract -> bool, c: Contract -> bool,
                                      d: Contract -> bool)
    requires forall k | k in ks :: OneOf(a(k), b(k), c(k), d(k))
    ensures Count(ks, a) + Count(ks, b) + Count(ks, c) + Count(ks, d) == |ks|
  {
    if ks == [] {
    } else {
      CountParts(ks[..|ks| - 1], a, b, c, d);
    }
  }

  function Held(): Contract -> bool { (k: Contract) => k.executor.status == HELD }

  function ResolvedIn(catalog: Catalog): Contract -> bool {
    (k: Contract) => GoTrim(k.component) in catalog && catalog[GoTrim(k.component)].resolved
  }

  /** Accounting: in a valid registry the executor buckets and the held contracts make up the total,
      the two intermediate buckets and the pending one are empty, no lifecycle is complete, and the
      ready sources are those the catalog has resolved. */
  lemma Accounting(ks: seq<Contract>, holds: seq<Hold>, catalog: Catalog)
    requires ContractsOk(ks, holds, catalog)
    ensures Count(ks, In(Foundation)) + Count(ks, In(FailureRemovePartial)) + Count(ks, In(SourceGated))
            + Count(ks, Held()) == |ks|
    ensures Count(ks, In(ReadinessPartial)) == Count(ks, In(DependencyPartial)) == Count(ks, In(Pending)) == 0
    ensures Count(ks, Complete) == 0
    ensures Count(ks, SourceReady) == Count(ks, ResolvedIn(catalog))
  {
    forall k | k in ks
      ensures OneOf(In(Foundation)(k), In(FailureRemovePartial)(k), In(SourceGated)(k), Held()(k))
      ensures !In(ReadinessPartial)(k) && !In(DependencyPartial)(k) && !In(Pending)(k) && !Complete(k)
      ensures SourceReady(k) == ResolvedIn(catalog)(k)
    {
      ContractInOneBucket(k, holds, catalog);
      NeverComplete(k, holds, catalog);
      ReadyIsResolved(k, holds, catalog);
    }
    CountParts(ks, In(Foundation), In(FailureRemovePartial), In(SourceGated), Held());
    CountNone(ks, In(ReadinessPartial));
    CountNone(ks, In(DependencyPartial));
    CountNone(ks, In(Pending));
    CountNone(ks, Complete);
    CountSame(ks, SourceReady, ResolvedIn(catalog));
  }

  /** The statuses the validator accepts, and where they are counted. */
  lemma BucketsAre()
    ensures BucketOf("foundation-harness-partial") == Foundation && "foundation-harness-partial" != HELD
    ensures BucketOf(PARTIAL) == FailureRemovePartial && PARTIAL != HELD
    ensures BucketOf("source-gated-component-executor") == SourceGated && "source-gated-component-executor" != HELD
    ensures BucketOf(HELD) == Uncounted
  {
  }

  lemma ExpectedBucket(name: string, resolved: bool, held: bool)
    ensures var status := ExpectedExecutor(name, resolved, held).0;
            if status == HELD then BucketOf(status) == Uncounted
            else BucketOf(status) in {Foundation, FailureRemovePartial, SourceGated}
  {
    BucketsAre();
  }

  lemma ContractInOneBucket(k: Contract, holds: seq<Hold>, catalog: Catalog)
    requires ContractOk(k, holds, catalog)
    ensures OneOf(In(Foundation)(k), In(FailureRemovePartial)(k), In(SourceGated)(k), Held()(k))
    ensures !In(ReadinessPartial)(k) && !In(DependencyPartial)(k) && !In(Pending)(k)
  {
    var name := GoTrim(k.component);
    ExpectedBucket(name, catalog[name].resolved, HoldFor(holds, name).Some?);
    BucketDecides(k);
  }

  lemma BucketDecides(k: Contract)
    requires var status := k.executor.status;
             if status == HELD then BucketOf(status) == Uncounted
             else BucketOf(status) in {Foundation, FailureRemovePartial, SourceGated}
    ensures OneOf(In(Foundation)(k), In(FailureRemovePartial)(k), In(SourceGated)(k), Held()(k))
    ensures !In(ReadinessPartial)(k) && !In(DependencyPartial)(k) && !In(Pending)(k)
  {
  }

  lemma NeverComplete(k: Contract, holds: seq<Hold>, catalog: Catalog)
    requires ContractOk(k, holds, catalog)
    ensures !Complete(k)
  {
    var name := GoTrim(k.component);
    assert StageOk(k.lifecycle[0], 0, name, catalog[name].resolved, HoldFor(holds, name));
  }

  lemma ReadyIsResolved(k: Contract, holds: seq<Hold>, catalog: Catalog)
    requires ContractOk(k, holds, catalog)
    ensures SourceReady(k) == ResolvedIn(catalog)(k)
  {
  }
}

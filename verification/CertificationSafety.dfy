/** What the registry's transitions keep. */
module CertificationSafety {
  import opened Collections
  import opened Text
  import opened Certification

  // ---- looking holds up ---------------------------------------------------------------------

  lemma {:induction false} HoldForFound(holds: seq<Hold>, name: string)
    ensures var h := HoldFor(holds, name);
            && (h.Some? <==> exists i | 0 <= i < |holds| :: GoTrim(holds[i].component) == name)
            && (h.Some? ==> h.value in holds && GoTrim(h.value.component) == name)
  {
    if holds == [] {
    } else {
      HoldForFound(holds[1..], name);
      if GoTrim(holds[0].component) != name {
        if i :| 0 <= i < |holds| && GoTrim(holds[i].component) == name { assert holds[1..][i - 1] == holds[i]; }
        if i :| 0 <= i < |holds[1..]| && GoTrim(holds[1..][i].component) == name {
          assert holds[i + 1] == holds[1..][i];
        }
      }
    }
  }

  /** With distinct trimmed names the hold of a name is the one listed, wherever it stands. */
  lemma HoldForIs(holds: seq<Hold>, i: nat)
    requires HoldsDistinct(holds) && i < |holds|
    ensures HoldFor(holds, GoTrim(holds[i].component)) == Some(holds[i])
  {
    var name := GoTrim(holds[i].component);
    HoldForFound(holds, name);
    var h := HoldFor(holds, name).value;
    var j :| 0 <= j < |holds| && holds[j] == h;
  }

  lemma {:induction false} RawHoldFound(holds: seq<Hold>, name: string)
    ensures var h := RawHold(holds, name);
            && (h.Some? <==> exists i | 0 <= i < |holds| :: holds[i].component == name)
            && (h.Some? ==> h.value in holds && h.value.component == name)
  {
    if holds == [] {
    } else {
      var n := |holds| - 1;
      RawHoldFound(holds[..n], name);
      if holds[n].component != name {
        if i :| 0 <= i < |holds| && holds[i].component == name { assert holds[..n][i] == holds[i]; }
        if i :| 0 <= i < |holds[..n]| && holds[..n][i].component == name { assert holds[i] == holds[..n][i]; }
      }
    }
  }

  /** The hold by exact name, if there is one, is the hold by trimmed name. */
  lemma RawIsTrimmed(holds: seq<Hold>, name: string)
    requires HoldsDistinct(holds) && RawHold(holds, name).Some?
    ensures HoldFor(holds, GoTrim(name)) == RawHold(holds, name)
  {
    RawHoldFound(holds, name);
    var h := RawHold(holds, name).value;
    var i :| 0 <= i < |holds| && holds[i] == h;
    HoldForIs(holds, i);
  }

  // ---- the exact condition ------------------------------------------------------------------

  /** The registry spells this component's name as the validator will read it: the foundation is not
      misspelt, and a hold on the component carries its exact name. */
  predicate KeysAgree(holds: seq<Hold>, name: string) {
    if GoTrim(name) == FOUNDATION then name == FOUNDATION
    else HoldFor(holds, GoTrim(name)).Some? ==> RawHold(holds, name).Some?
  }

  lemma StagesGated(stages: seq<Stage>, old_: (string, bool, Option<Hold>), name: string, hold: Option<Hold>)
    requires LifecycleOk(stages, old_.0, old_.1, old_.2) && name != FOUNDATION
    ensures LifecycleOk(GatedAll(stages, hold), name, true, hold)
  {
    var out := GatedAll(stages, hold);
    forall i | 0 <= i < |out| ensures StageOk(out[i], i, name, true, hold) {
      assert StageOk(stages[i], i, old_.0, old_.1, old_.2);
    }
  }

  /** A contract bound to a new resolved source satisfies the validator exactly when the keys agree. */
  lemma BoundOkIff(k: Contract, holds: seq<Hold>, catalog: Catalog, c: Component)
    requires ContractOk(k, holds, catalog) && HoldsDistinct(holds)
    requires c.resolved && GoTrim(c.digest) != ""
    ensures ContractOk(Bound(k, c, holds), holds, catalog[GoTrim(k.component) := c]) <==> KeysAgree(holds, k.component)
  {
    var name := GoTrim(k.component);
    var cat := catalog[name := c];
    var hold, raw := HoldFor(holds, name), RawHold(holds, k.component);
    var k' := Bound(k, c, holds);
    if raw.Some? { RawIsTrimmed(holds, k.component); }
    assert name == FOUNDATION ==> hold.None?;
    if k.component == FOUNDATION {
      TrimTight(FOUNDATION, IsGoSpace);
      assert name == FOUNDATION;
      assert k'.lifecycle == k.lifecycle;
      forall i | 0 <= i < |k.lifecycle| ensures StageOk(k'.lifecycle[i], i, name, true, hold) {
        assert StageOk(k.lifecycle[i], i, name, catalog[name].resolved, hold);
      }
    } else if name != FOUNDATION {
      StagesGated(k.lifecycle, (name, catalog[name].resolved, hold), name, raw);
    }
  }

  lemma ContractElsewhere(k: Contract, holds: seq<Hold>, catalog: Catalog, name: string, c: Component)
    requires ContractOk(k, holds, catalog) && GoTrim(k.component) != name
    ensures ContractOk(k, holds, catalog[name := c])
  {
  }

  lemma HoldsAfterUpdate(holds: seq<Hold>, catalog: Catalog, name: string, c: Component)
    requires HoldsOk(holds, catalog) && name in catalog
    ensures HoldsOk(holds, catalog[name := c])
  {
    forall i | 0 <= i < |holds| ensures HoldOk(holds[i], catalog[name := c]) { assert HoldOk(holds[i], catalog); }
  }

  lemma CoversAfterUpdate(names: seq<string>, catalog: Catalog, name: string, c: Component)
    requires Covers(names, catalog) && name in catalog
    ensures Covers(names, catalog[name := c])
  {
    assert catalog[name := c].Keys == catalog.Keys;
    assert |catalog| == |catalog.Keys| && |catalog[name := c]| == |catalog[name := c].Keys|;
  }

  lemma ContractsAfterUpdate(ks: seq<Contract>, holds: seq<Hold>, catalog: Catalog, i: nat, k': Contract, c: Component)
    requires ContractsOk(ks, holds, catalog) && i < |ks| && k'.component == ks[i].component
    requires Covers(Names(ks), catalog)
    ensures var cat := catalog[GoTrim(k'.component) := c];
            ContractsOk(ks[i := k'], holds, cat) <==> ContractOk(k', holds, cat)
  {
    var name := GoTrim(k'.component);
    var cat := catalog[name := c];
    forall j | 0 <= j < |ks| && j != i ensures ContractOk(ks[j], holds, cat) {
      assert Names(ks)[i] == name && Names(ks)[j] == GoTrim(ks[j].component);
      ContractElsewhere(ks[j], holds, catalog, name, c);
    }
    assert ks[i := k'][i] == k';
  }

  lemma NamesAfterUpdate(ks: seq<Contract>, i: nat, k': Contract)
    requires i < |ks| && k'.component == ks[i].component
    ensures Names(ks[i := k']) == Names(ks)
  {
  }

  /** One contract changed, nothing else: validity comes down to that contract. */
  lemma OthersStayOk(r: Registry, catalog: Catalog, i: nat, k': Contract, c: Component, id: Header)
    requires ValidFor(r, catalog, id) && i < |r.components|
    requires k'.component == r.components[i].component
    ensures var cat := catalog[GoTrim(k'.component) := c];
            ValidFor(r.(components := r.components[i := k']), cat, id) <==> ContractOk(k', r.holds, cat)
  {
    var name := GoTrim(k'.component);
    assert ContractOk(r.components[i], r.holds, catalog);
    NamesAfterUpdate(r.components, i, k');
    HoldsAfterUpdate(r.holds, catalog, name, c);
    CoversAfterUpdate(Names(r.components), catalog, name, c);
    ContractsAfterUpdate(r.components, r.holds, catalog, i, k', c);
  }

  // ---- rebind -------------------------------------------------------------------------------

  lemma RebindAgain(k: Contract, holds: seq<Hold>, catalog: Catalog, c: Component)
    requires ContractOk(k, holds, catalog) && k.source.resolved
    requires c.resolved && GoTrim(c.digest) != "" && k.release == c.release && k.source.digest == c.digest
    ensures ContractOk(k, holds, catalog[GoTrim(k.component) := c])
  {
  }

  /** What a successful Rebind changes: at most the one contract of that exact name. */
  lemma RebindShape(r: Registry, c: Component) returns (i: nat, k': Contract)
    requires Rebind(r, c).Some?
    ensures i == Find(r.components, c.name) && r.components[i].component == k'.component == c.name
    ensures Rebind(r, c).value == r.(components := r.components[i := k'])
    ensures c.resolved && GoTrim(c.digest) != ""
    ensures k' == if r.components[i].source.resolved then r.components[i] else Bound(r.components[i], c, r.holds)
    ensures r.components[i].source.resolved ==>
              r.components[i].release == c.release && r.components[i].source.digest == c.digest
  {
    i := Find(r.components, c.name);
    var k := r.components[i];
    k' := if k.source.resolved then k else Bound(k, c, r.holds);
    assert r.components[i := k] == r.components;
  }

  /** A successful Rebind leaves the registry valid for the catalog updated at that component if and
      only if the source was bound already or the keys agree. */
  lemma RebindValidIff(r: Registry, catalog: Catalog, c: Component, id: Header)
    requires ValidFor(r, catalog, id) && Rebind(r, c).Some?
    ensures ValidFor(Rebind(r, c).value, catalog[GoTrim(c.name) := c], id)
            <==> r.components[Find(r.components, c.name)].source.resolved || KeysAgree(r.holds, c.name)
  {
    var i, k' := RebindShape(r, c);
    var k := r.components[i];
    assert ContractOk(k, r.holds, catalog);
    OthersStayOk(r, catalog, i, k', c, id);
    if k.source.resolved { RebindAgain(k, r.holds, catalog, c); } else { BoundOkIff(k, r.holds, catalog, c); }
  }

  // ---- the condition is needed --------------------------------------------------------------

  function Padded(h: Hold): Hold { h.(component := h.component + " ") }

  lemma TrimPadded(name: string)
    requires GoTrim(name) == name && name != ""
    ensures GoTrim(name + " ") == name
  {
    TrimTight(name, IsGoSpace);
    assert (name + " ")[0] == name[0] && (name + " ")[..|name|] == name;
    assert TrimLeft(name + " ", IsGoSpace) == name + " ";
    assert TrimRight(name + " ", IsGoSpace) == TrimRight(name, IsGoSpace);
  }

  predicate SameHold(a: Option<Hold>, b: Option<Hold>) {
    a.Some? == b.Some? && (a.Some? ==> a.value.authority == b.value.authority)
  }

  lemma {:induction false} PaddedLookup(holds: seq<Hold>, h: nat, name: string)
    requires h < |holds| && GoTrim(holds[h].component) == holds[h].component && holds[h].component != ""
    ensures SameHold(HoldFor(holds[h := Padded(holds[h])], name), HoldFor(holds, name))
  {
    var padded := holds[h := Padded(holds[h])];
    TrimPadded(holds[h].component);
    if h == 0 {
      assert padded[1..] == holds[1..];
    } else {
      PaddedLookup(holds[1..], h - 1, name);
      assert padded[1..] == holds[1..][h - 1 := Padded(holds[1..][h - 1])];
    }
  }

  lemma PaddedContract(k: Contract, holds: seq<Hold>, holds': seq<Hold>, catalog: Catalog)
    requires ContractOk(k, holds, catalog)
             && SameHold(HoldFor(holds', GoTrim(k.component)), HoldFor(holds, GoTrim(k.component)))
    ensures ContractOk(k, holds', catalog)
  {
    var name := GoTrim(k.component);
    forall i | 0 <= i < |k.lifecycle|
      ensures StageOk(k.lifecycle[i], i, name, catalog[name].resolved, HoldFor(holds', name))
    {
      assert StageOk(k.lifecycle[i], i, name, catalog[name].resolved, HoldFor(holds, name));
    }
  }

  lemma PaddedIsValid(r: Registry, catalog: Catalog, h: nat, id: Header)
    requires ValidFor(r, catalog, id) && h < |r.holds| && GoTrim(r.holds[h].component) == r.holds[h].component
    ensures ValidFor(r.(holds := r.holds[h := Padded(r.holds[h])]), catalog, id)
  {
    assert HoldOk(r.holds[h], catalog);
    var holds' := r.holds[h := Padded(r.holds[h])];
    TrimPadded(r.holds[h].component);
    forall i | 0 <= i < |holds'| ensures HoldOk(holds'[i], catalog) { assert HoldOk(r.holds[i], catalog); }
    forall i, j | 0 <= i < j < |holds'| ensures GoTrim(holds'[i].component) != GoTrim(holds'[j].component) {
      assert GoTrim(r.holds[i].component) != GoTrim(r.holds[j].component);
    }
    forall i | 0 <= i < |r.components| ensures ContractOk(r.components[i], holds', catalog) {
      PaddedLookup(r.holds, h, GoTrim(r.components[i].component));
      PaddedContract(r.components[i], r.holds, holds', catalog);
    }
  }

  lemma PaddedKeysDisagree(holds: seq<Hold>, h: nat)
    requires HoldsDistinct(holds) && h < |holds| && GoTrim(holds[h].component) == holds[h].component
    requires holds[h].component != "" && holds[h].component != FOUNDATION
    ensures !KeysAgree(holds[h := Padded(holds[h])], holds[h].component)
  {
    var name, holds' := holds[h].component, holds[h := Padded(holds[h])];
    PaddedLookup(holds, h, name);
    HoldForIs(holds, h);
    RawHoldFound(holds', name);
    assert forall i | 0 <= i < |holds| && i != h :: GoTrim(holds[i].component) != name;
  }

  /** From any valid registry with a hold on an unbound component, padding the name on the hold gives a
      valid registry that a successful Rebind leaves invalid. */
  lemma PaddedHoldBreaksRebind(r: Registry, catalog: Catalog, c: Component, h: nat, id: Header) returns (p: Registry)
    requires ValidFor(r, catalog, id) && Rebind(r, c).Some? && GoTrim(c.name) == c.name && c.name != FOUNDATION
    requires h < |r.holds| && r.holds[h].component == c.name
             && !r.components[Find(r.components, c.name)].source.resolved
    ensures p == r.(holds := r.holds[h := Padded(r.holds[h])])
    ensures ValidFor(p, catalog, id) && Rebind(p, c).Some? && !ValidFor(Rebind(p, c).value, catalog[c.name := c], id)
  {
    p := r.(holds := r.holds[h := Padded(r.holds[h])]);
    assert HoldOk(r.holds[h], catalog);
    PaddedIsValid(r, catalog, h, id);
    PaddedKeysDisagree(r.holds, h);
    RebindValidIff(p, catalog, c, id);
  }

  // ---- migrate ------------------------------------------------------------------------------

  /** A successful Migrate leaves the registry valid for the catalog with the target in place of the
      previous source if and only if the keys agree. */
  lemma MigrateValidIff(r: Registry, catalog: Catalog, previous: Component, target: Component, authority: string,
                        id: Header)
    requires ValidFor(r, catalog, id) && Migrate(r, previous, target, authority).Some?
    ensures var r' := Migrate(r, previous, target, authority).value;
            var i := Find(r.components, previous.name);
            && i >= 0
            && r' == r.(components := r.components[i := r'.components[i]])
            && (ValidFor(r', catalog[GoTrim(target.name) := target], id) <==> KeysAgree(r.holds, target.name))
  {
    var i := Find(r.components, previous.name);
    var k := r.components[i];
    assert ContractOk(k, r.holds, catalog);
    OthersStayOk(r, catalog, i, Bound(k, target, r.holds), target, id);
    BoundOkIff(k, r.holds, catalog, target);
  }

  /** The exact migration, once done, is refused until the registry is bound to the previous source again. */
  lemma MigrateReplayRefused(r: Registry, previous: Component, target: Component, authority: string)
    requires Migrate(r, previous, target, authority).Some?
    ensures var r' := Migrate(r, previous, target, authority).value;
            Migrate(r', previous, target, authority).None?
  {
    var i := Find(r.components, previous.name);
    var k' := Bound(r.components[i], target, r.holds);
    var r' := Migrate(r, previous, target, authority).value;
    assert r'.components == r.components[i := k'];
    FindAfterUpdate(r.components, i, k');
  }

  lemma {:induction false} FindAfterUpdate(ks: seq<Contract>, i: nat, k: Contract)
    requires i < |ks| && k.component == ks[i].component
    ensures forall name :: Find(ks[i := k], name) == Find(ks, name)
  {
    var ks' := ks[i := k];
    forall name ensures Find(ks', name) == Find(ks, name) {
      assert forall j | 0 <= j < |ks| :: ks'[j].component == ks[j].component;
      var a, b := Find(ks', name), Find(ks, name);
      assert a >= 0 ==> ks[a].component == name;
      assert b >= 0 ==> ks'[b].component == name;
    }
  }

  // ---- release ------------------------------------------------------------------------------

  lemma RemovalDistinct(holds: seq<Hold>, h: nat)
    requires HoldsDistinct(holds) && h < |holds|
    ensures HoldsDistinct(Without(holds, h))
  {
    var rest := Without(holds, h);
    forall i, j | 0 <= i < j < |rest| ensures GoTrim(rest[i].component) != GoTrim(rest[j].component) {
      var a, b := if i < h then i else i + 1, if j < h then j else j + 1;
      assert rest[i] == holds[a] && rest[j] == holds[b];
    }
  }

  lemma RemovedHold(holds: seq<Hold>, h: nat)
    requires HoldsDistinct(holds) && h < |holds|
    ensures HoldFor(Without(holds, h), GoTrim(holds[h].component)) == None
  {
    var rest, name := Without(holds, h), GoTrim(holds[h].component);
    HoldForFound(rest, name);
    forall i | 0 <= i < |rest| ensures GoTrim(rest[i].component) != name {
      var a := if i < h then i else i + 1;
      assert rest[i] == holds[a] && a != h;
    }
  }

  lemma OtherHoldStays(holds: seq<Hold>, h: nat, i: nat)
    requires HoldsDistinct(holds) && h < |holds| && i < |holds| && i != h
    ensures HoldFor(Without(holds, h), GoTrim(holds[i].component)) == Some(holds[i])
  {
    RemovalDistinct(holds, h);
    var j := if i < h then i else i - 1;
    assert Without(holds, h)[j] == holds[i];
    HoldForIs(Without(holds, h), j);
  }

  lemma AbsentHoldStays(holds: seq<Hold>, h: nat, name: string)
    requires h < |holds| && HoldFor(holds, name).None?
    ensures HoldFor(Without(holds, h), name).None?
  {
    var rest := Without(holds, h);
    HoldForFound(rest, name);
    HoldForFound(holds, name);
    forall i | 0 <= i < |rest| ensures GoTrim(rest[i].component) != name {
      assert rest[i] == holds[if i < h then i else i + 1];
    }
  }

  /** Removing a hold takes away the hold on its own name and no other. */
  lemma HoldForAfterRemoval(holds: seq<Hold>, h: nat, name: string)
    requires HoldsDistinct(holds) && h < |holds|
    ensures HoldsDistinct(Without(holds, h))
    ensures HoldFor(Without(holds, h), name)
            == if name == GoTrim(holds[h].component) then None else HoldFor(holds, name)
  {
    RemovalDistinct(holds, h);
    if name == GoTrim(holds[h].component) {
      RemovedHold(holds, h);
    } else if HoldFor(holds, name).Some? {
      HoldForFound(holds, name);
      var i :| 0 <= i < |holds| && holds[i] == HoldFor(holds, name).value;
      OtherHoldStays(holds, h, i);
    } else {
      AbsentHoldStays(holds, h, name);
    }
  }

  /** A contract without a hold of its own is looked at as before. */
  lemma OtherAfterRelease(k: Contract, holds: seq<Hold>, h: nat, catalog: Catalog)
    requires ContractOk(k, holds, catalog) && HoldsDistinct(holds) && h < |holds|
             && GoTrim(k.component) != GoTrim(holds[h].component)
    ensures ContractOk(k, Without(holds, h), catalog)
  {
    HoldForAfterRemoval(holds, h, GoTrim(k.component));
  }

  lemma OneAfterRelease(k: Contract, holds: seq<Hold>, h: nat, catalog: Catalog)
    requires ContractOk(k, holds, catalog) && HoldsDistinct(holds) && h < |holds|
    requires holds[h].component == k.component == GoTrim(k.component) && k.source.resolved
    ensures ContractOk(Promoted(k, None), Without(holds, h), catalog)
  {
    var name := k.component;
    HoldForAfterRemoval(holds, h, name);
    HoldForIs(holds, h);
    StagesGated(k.lifecycle, (name, catalog[name].resolved, HoldFor(holds, name)), name, None);
  }

  lemma ContractsAfterRelease(ks: seq<Contract>, holds: seq<Hold>, catalog: Catalog, i: nat, h: nat)
    requires ContractsOk(ks, holds, catalog) && Covers(Names(ks), catalog) && HoldsDistinct(holds)
    requires i < |ks| && h < |holds| && holds[h].component == ks[i].component == GoTrim(ks[i].component)
    requires ks[i].source.resolved
    ensures ContractsOk(ks[i := Promoted(ks[i], None)], Without(holds, h), catalog)
  {
    OneAfterRelease(ks[i], holds, h, catalog);
    forall j | 0 <= j < |ks| && j != i ensures ContractOk(ks[j], Without(holds, h), catalog) {
      assert Names(ks)[i] == GoTrim(ks[i].component) && Names(ks)[j] == GoTrim(ks[j].component);
      OtherAfterRelease(ks[j], holds, h, catalog);
    }
  }

  lemma HoldsAfterRelease(holds: seq<Hold>, catalog: Catalog, h: nat)
    requires HoldsOk(holds, catalog) && h < |holds|
    ensures HoldsOk(Without(holds, h), catalog)
  {
    var rest := Without(holds, h);
    forall j | 0 <= j < |rest| ensures HoldOk(rest[j], catalog) {
      var a := if j < h then j else j + 1;
      assert rest[j] == holds[a];
      assert HoldOk(holds[a], catalog);
    }
    HoldForAfterRemoval(holds, h, "");
  }

  /** What a successful Release changes: one hold goes, one contract of its exact name is promoted. */
  lemma ReleaseShape(r: Registry, component: string, authority: string) returns (i: nat, h: nat)
    requires Release(r, component, authority).Some?
    ensures var r', name := Release(r, component, authority).value, GoTrim(component);
            && GoTrim(name) == name
            && i < |r.components| && r.components[i].component == name && r.components[i].source.resolved
            && h < |r.holds| && r.holds[h].component == name
            && r' == r.(holds := Without(r.holds, h),
                        components := r.components[i := Promoted(r.components[i], None)])
  {
    var name := GoTrim(component);
    h := ReleasableHold(r.holds, name, GoTrim(authority));
    i := Find(r.components, name);
    TrimShape(component, IsGoSpace);
    TrimTight(name, IsGoSpace);
  }

  lemma ReleasedIsValid(r: Registry, catalog: Catalog, i: nat, h: nat, r': Registry, id: Header)
    requires ValidFor(r, catalog, id) && i < |r.components| && h < |r.holds|
    requires r.holds[h].component == r.components[i].component == GoTrim(r.components[i].component)
    requires r.components[i].source.resolved
    requires r' == r.(holds := Without(r.holds, h),
                      components := r.components[i := Promoted(r.components[i], None)])
    ensures ValidFor(r', catalog, id)
  {
    HoldsAfterRelease(r.holds, catalog, h);
    ContractsAfterRelease(r.components, r.holds, catalog, i, h);
    NamesAfterUpdate(r.components, i, Promoted(r.components[i], None));
  }

  /** A successful Release always leaves the registry valid for the same catalog, with the hold gone. */
  lemma ReleaseKeepsValid(r: Registry, catalog: Catalog, component: string, authority: string, id: Header)
    requires ValidFor(r, catalog, id) && Release(r, component, authority).Some?
    ensures var r' := Release(r, component, authority).value;
            ValidFor(r', catalog, id) && HoldFor(r'.holds, GoTrim(component)).None?
  {
    var i, h := ReleaseShape(r, component, authority);
    var r' := Release(r, component, authority).value;
    assert ValidFor(r', catalog, id) by { ReleasedIsValid(r, catalog, i, h, r', id); }
    assert HoldFor(r'.holds, GoTrim(component)).None? by { HoldForAfterRemoval(r.holds, h, GoTrim(component)); }
  }
}

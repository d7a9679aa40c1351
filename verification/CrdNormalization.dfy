/** The Kyverno 3.8.2 runtime normalisation of catalog/runtime_normalization.go, which edits the
    decoded resources in place. */
module CrdNormalization {
  import opened Collections
  import opened JsonTrees
  import opened Text
  import NameOrder

  type Resource = map<string, Json>

  const SUFFIX := ".policies.kyverno.io"
  const SYNC_KEY := "argocd.argoproj.io/sync-options"
  const SYNC_VALUE := "ServerSideApply=true"

  const KINDS: seq<string> := [
    "deletingpolicies", "generatingpolicies", "imagevalidatingpolicies", "mutatingpolicies",
    "namespaceddeletingpolicies", "namespacedgeneratingpolicies", "namespacedimagevalidatingpolicies",
    "namespacedmutatingpolicies", "namespacedvalidatingpolicies", "policyexceptions", "validatingpolicies"]

  /** The names of the policies CRDs of these kinds. */
  function PoliciesCrds(kinds: seq<string>): set<string> { set kind | kind in kinds :: kind + SUFFIX }

  predicate IsCrd(r: Resource) {
    "kind" in r && r["kind"].Str? && GoTrim(r["kind"].s) == "CustomResourceDefinition"
  }

  predicate HasSuffix(s: string, suffix: string) {
    |suffix| <= |s| && s[|s| - |suffix|..] == suffix
  }

  function NameOf(metadata: Resource): string {
    if "name" in metadata && metadata["name"].Str? then metadata["name"].s else ""
  }

  predicate EmptyObject(metadata: Resource, field: string) {
    field in metadata && metadata[field] == Obj(map[])
  }

  function Without(m: Resource, field: string): Resource {
    map k | k in m && k != field :: m[k]
  }

  /** The labels and annotations of a policies CRD go, if both are empty objects. */
  function Stripped(metadata: Resource): Option<Resource> {
    if EmptyObject(metadata, "labels") && EmptyObject(metadata, "annotations")
    then Some(Without(Without(metadata, "labels"), "annotations"))
    else None
  }

  // ---- the sync options ---------------------------------------------------------------------

  /** `strings.Split` at commas. */
  function Options(text: string): seq<string> {
    if ',' !in text then [text]
    else if text[0] == ',' then [""] + Options(text[1..])
    else var rest := Options(text[1..]); [[text[0]] + rest[0]] + rest[1..]
  }

  predicate Carries(text: string, value: string) {
    exists o | o in Options(text) :: GoTrim(o) == value
  }

  function WithOption(text: string, value: string): string {
    if Carries(text, value) then text
    else if GoTrim(text) == "" then value
    else text + "," + value
  }

  /** An option as it stands: no comma, no blanks around it. */
  predicate Plain(value: string) {
    value != "" && ',' !in value && Tight(value, IsGoSpace)
  }

  lemma {:induction false} OptionsAppend(text: string, last: string)
    requires ',' !in last
    ensures Options(text + "," + last) == Options(text) + [last]
  {
    var whole := text + "," + last;
    assert whole[|text|] == ',';
    if text == "" {
      assert whole[1..] == last;
    } else {
      assert whole[1..] == text[1..] + "," + last && whole[0] == text[0];
      OptionsAppend(text[1..], last);
      if ',' !in text {
        assert ',' !in text[1..];
        assert text == [text[0]] + text[1..];
      }
    }
  }

  lemma PlainCarries(value: string)
    requires Plain(value)
    ensures Carries(value, value) && GoTrim(value) == value
  {
    TrimTight(value, IsGoSpace);
    assert Options(value) == [value];
    assert value in Options(value);
  }

  /** Options that were there and not blank are still there, first. */
  predicate Keeps(before: string, after: string) {
    GoTrim(before) != "" ==> before <= after
  }

  /** The result carries the option, keeps what was there, and is not changed again. */
  lemma WithOptionCarries(text: string, value: string)
    requires Plain(value)
    ensures Carries(WithOption(text, value), value) && Keeps(text, WithOption(text, value))
    ensures WithOption(WithOption(text, value), value) == WithOption(text, value)
  {
    PlainCarries(value);
    var out := WithOption(text, value);
    if !Carries(text, value) && GoTrim(text) != "" {
      OptionsAppend(text, value);
      assert value in Options(out);
    }
  }

  function AnnotatedWith(annotations: Resource, key: string, value: string): Option<Resource> {
    if key !in annotations then Some(annotations[key := Str(value)])
    else if !annotations[key].Str? then None
    else Some(annotations[key := Str(WithOption(annotations[key].s, value))])
  }

  function Annotated(annotations: Resource): Option<Resource> {
    AnnotatedWith(annotations, SYNC_KEY, SYNC_VALUE)
  }

  /** The annotations of any CRD gain the option; an absent map is created. */
  function SyncSet(metadata: Resource): Option<Resource> {
    if "annotations" in metadata && !metadata["annotations"].Obj? then None
    else
      var a := Annotated(if "annotations" in metadata then metadata["annotations"].fields else map[]);
      if a.None? then None else Some(metadata["annotations" := Obj(a.value)])
  }

  // ---- one resource and all of them ---------------------------------------------------------

  predicate IsPolicies(r: Resource) {
    IsCrd(r) && "metadata" in r && r["metadata"].Obj? && HasSuffix(NameOf(r["metadata"].fields), SUFFIX)
  }

  function NewMetadata(metadata: Resource): Option<Resource> {
    var base := if HasSuffix(NameOf(metadata), SUFFIX) then Stripped(metadata) else Some(metadata);
    if base.None? then None else SyncSet(base.value)
  }

  /** A resource after its turn of the loop, apart from the coverage checks. */
  function Normalized(r: Resource): Option<Resource> {
    if !IsCrd(r) then Some(r)
    else if "metadata" !in r || !r["metadata"].Obj? then None
    else
      var m := NewMetadata(r["metadata"].fields);
      if m.None? then None else Some(r["metadata" := Obj(m.value)])
  }

  /** The name of a policies CRD. */
  function PolicyOf(r: Resource): Option<string> {
    if IsPolicies(r) then Some(NameOf(r["metadata"].fields)) else None
  }

  function PolicyNames(rs: seq<Resource>): seq<string> {
    if rs == [] then []
    else
      var last := PolicyOf(rs[|rs| - 1]);
      PolicyNames(rs[..|rs| - 1]) + if last.Some? then [last.value] else []
  }

  /** The names of all custom resource definitions. */
  function CrdNames(rs: seq<Resource>): seq<string> {
    if rs == [] then []
    else
      var last := rs[|rs| - 1];
      CrdNames(rs[..|rs| - 1]) + if IsCrd(last) then [NameOf(MetadataOf(last))] else []
  }

  function MetadataOf(r: Resource): Resource {
    if "metadata" in r && r["metadata"].Obj? then r["metadata"].fields else map[]
  }

  /** The policies CRDs are exactly the expected ones, each once. */
  ghost predicate Covers(table: set<string>, rs: seq<Resource>) {
    var names := PolicyNames(rs);
    (forall i, j | 0 <= i < j < |names| :: names[i] != names[j]) && forall n :: n in names <==> n in table
  }

  ghost predicate Accepted(table: set<string>, rs: seq<Resource>) {
    Covers(table, rs) && CrdNames(rs) != [] && forall i | 0 <= i < |rs| :: Normalized(rs[i]).Some?
  }

  lemma {:induction false} NameHasResource(rs: seq<Resource>, name: string) returns (i: nat)
    requires name in PolicyNames(rs)
    ensures i < |rs| && PolicyOf(rs[i]) == Some(name)
  {
    var n := |rs| - 1;
    if PolicyOf(rs[n]) == Some(name) { i := n; } else { i := NameHasResource(rs[..n], name); }
  }

  lemma {:induction false} NamesPrefix(rs: seq<Resource>, n: nat)
    requires n <= |rs|
    ensures PolicyNames(rs[..n]) <= PolicyNames(rs)
    decreases |rs|
  {
    if n == |rs| {
      assert rs[..n] == rs;
    } else {
      NamesPrefix(rs[..|rs| - 1], n);
      assert rs[..|rs| - 1][..n] == rs[..n];
    }
  }

  /** What the run did: the policies CRDs stripped, and all CRDs annotated, both by name and sorted. */
  datatype Evidence = Evidence(removedLabels: nat, removedAnnotations: nat, names: seq<string>,
                               annotated: nat, applied: seq<string>)

  function Itself(name: string): string { name }

  function EvidenceOf(names: seq<string>, applied: seq<string>): Evidence {
    Evidence(|names|, |names|, NameOrder.Sort(names, Itself), |applied|, NameOrder.Sort(applied, Itself))
  }

  /** One turn of the loop: the resource's new value, unless the turn is refused. */
  method Turn(table: set<string>, seen: set<string>, r: Resource) returns (ok: bool, r': Resource, name: Option<string>)
    ensures ok <==> Normalized(r).Some? && (PolicyOf(r).Some? ==> PolicyOf(r).value in table - seen)
    ensures ok ==> Some(r') == Normalized(r) && name == PolicyOf(r)
  {
    ok, r', name := true, r, None;
    if IsCrd(r) {
      if "metadata" !in r || !r["metadata"].Obj? { return false, r, None; }
      var metadata := r["metadata"].fields;
      if HasSuffix(NameOf(metadata), SUFFIX) {
        name := Some(NameOf(metadata));
        if name.value !in table || name.value in seen { return false, r, None; }
      }
      var m := NewMetadata(metadata);
      if m.None? { return false, r, None; }
      r' := r["metadata" := Obj(m.value)];
    }
  }

  /** What is known of the names met so far. */
  ghost predicate Met(table: set<string>, seen: set<string>, names: seq<string>) {
    Distinct(names) && |seen| == |names| && seen <= table && forall x :: x in seen <==> x in names
  }

  /** The first `n` resources have had their turn. */
  ghost predicate Underway(was: seq<Resource>, now: seq<Resource>, n: nat, names: seq<string>, applied: seq<string>) {
    && |now| == |was| && n <= |was|
    && (forall i | n <= i < |was| :: now[i] == was[i])
    && (forall i | 0 <= i < n :: Some(now[i]) == Normalized(was[i]))
    && names == PolicyNames(was[..n]) && applied == CrdNames(was[..n])
  }

  lemma OneMore(was: seq<Resource>, now: seq<Resource>, n: nat, names: seq<string>, applied: seq<string>, r: Resource)
    requires Underway(was, now, n, names, applied) && n < |was| && Some(r) == Normalized(was[n])
    ensures Underway(was, now[n := r], n + 1,
                     names + (if PolicyOf(was[n]).Some? then [PolicyOf(was[n]).value] else []),
                     applied + (if IsCrd(was[n]) then [NameOf(MetadataOf(was[n]))] else []))
  {
    assert was[..n + 1][..n] == was[..n] && was[..n + 1][n] == was[n];
  }

  /** `normalizeRuntimeResources` on an array of unshared resources. On success every resource is the
      normalised one, and the evidence counts and names the policies CRDs and all CRDs. */
  method Normalize(table: set<string>, rs: array<Resource>) returns (ev: Option<Evidence>)
    modifies rs
    ensures ev.Some? <==> Accepted(table, old(rs[..]))
    ensures ev.Some? ==> forall i | 0 <= i < rs.Length :: Some(rs[i]) == Normalized(old(rs[i]))
    ensures ev.Some? ==>
              && ev.value == EvidenceOf(PolicyNames(old(rs[..])), CrdNames(old(rs[..])))
              && ev.value.removedLabels == |table|
  {
    ghost var was := rs[..];
    var seen: set<string> := {};
    var names: seq<string>, applied: seq<string> := [], [];
    for n := 0 to rs.Length
      invariant Underway(was, rs[..], n, names, applied) && Met(table, seen, names)
    {
      var r := rs[n];
      var ok, r', name := Turn(table, seen, r);
      if !ok { Refused(table, was, n, seen, names); return None; }
      OneMore(was, rs[..], n, names, applied, r');
      rs[n] := r';
      if IsCrd(r) { applied := applied + [NameOf(MetadataOf(r))]; }
      if name.Some? {
        MetOneMore(table, seen, names, name.value);
        seen, names := seen + {name.value}, names + [name.value];
      }
    }
    assert was[..rs.Length] == was;
    Decides(table, was, seen, names);
    if |seen| != |table| || applied == [] { return None; }
    return Some(EvidenceOf(names, applied));
  }

  /** The coverage test at the end. */
  lemma Decides(table: set<string>, was: seq<Resource>, seen: set<string>, names: seq<string>)
    requires names == PolicyNames(was) && Met(table, seen, names)
    ensures |seen| == |table| <==> Covers(table, was)
    ensures |seen| == |table| ==> |names| == |table|
  {
    SameSize(seen, table);
  }

  lemma MetOneMore(table: set<string>, seen: set<string>, names: seq<string>, name: string)
    requires Met(table, seen, names) && name in table - seen
    ensures Met(table, seen + {name}, names + [name])
  {
    assert forall i | 0 <= i < |names| :: names[i] in names;
  }

  lemma Refused(table: set<string>, was: seq<Resource>, n: nat, seen: set<string>, names: seq<string>)
    requires n < |was| && names == PolicyNames(was[..n]) && Met(table, seen, names)
    requires Normalized(was[n]).None? || (PolicyOf(was[n]).Some? && PolicyOf(was[n]).value !in table - seen)
    ensures !Accepted(table, was)
  {
    if Normalized(was[n]).Some? {
      var name := PolicyOf(was[n]).value;
      assert was[..n + 1][..n] == was[..n];
      Uncovered(table, was, n, name, names);
    }
  }

  /** `normalizeRuntimeResources`: only Kyverno 3.8.2 is normalised, with its table of eleven names; for
      any other component nothing happens and the evidence is empty. */
  method NormalizeRuntimeResources(component: string, release: string, rs: array<Resource>)
    returns (ev: Option<Evidence>)
    modifies rs
    ensures component != "kyverno" || release != "3.8.2" ==> rs[..] == old(rs[..]) && ev == Some(EvidenceOf([], []))
    ensures component == "kyverno" && release == "3.8.2" ==>
              && (ev.Some? <==> Accepted(PoliciesCrds(KINDS), old(rs[..])))
              && (ev.Some? ==> forall i | 0 <= i < rs.Length :: Some(rs[i]) == Normalized(old(rs[i])))
              && (ev.Some? ==> ev.value == EvidenceOf(PolicyNames(old(rs[..])), CrdNames(old(rs[..]))))
              && (ev.Some? ==> ev.value.removedLabels == ev.value.removedAnnotations == 11 <= ev.value.annotated)
  {
    if component != "kyverno" || release != "3.8.2" { return Some(EvidenceOf([], [])); }
    ghost var was := rs[..];
    ev := Normalize(PoliciesCrds(KINDS), rs);
    PoliciesAreEleven();
    FewerPolicies(was);
  }

  /** Every policies CRD is a CRD. */
  lemma {:induction false} FewerPolicies(rs: seq<Resource>)
    ensures |PolicyNames(rs)| <= |CrdNames(rs)|
  {
    if rs == [] {
    } else {
      FewerPolicies(rs[..|rs| - 1]);
    }
  }

  /** The evidence lists are sorted and hold exactly the names. */
  lemma EvidenceSorted(table: set<string>, rs: seq<Resource>)
    requires Accepted(table, rs)
    ensures var ev := EvidenceOf(PolicyNames(rs), CrdNames(rs));
            && NameOrder.Increasing(ev.names, Itself) && (forall x :: x in ev.names <==> x in table)
            && |ev.applied| == ev.annotated && (forall x :: x in ev.applied <==> x in CrdNames(rs))
  {
    var names, applied := PolicyNames(rs), CrdNames(rs);
    NameOrder.SortIncreasing(names, Itself);
    NameOrder.SortMember(applied, Itself, "");
    forall x ensures x in NameOrder.Sort(names, Itself) <==> x in names { NameOrder.SortMember(names, Itself, x); }
    forall x
      ensures x in NameOrder.Sort(applied, Itself) <==> x in applied
    {
      NameOrder.SortMember(applied, Itself, x);
    }
  }

  // ---- the table ----------------------------------------------------------------------------

  /** What tells the eleven kinds apart: length, first letter, and the letter after `namespaced`. */
  function Mark(kind: string): (int, char, char)
    requires |kind| > 10
  {
    (|kind|, kind[0], kind[10])
  }

  const MARKS := [(16, 'd', 'l'), (18, 'g', 'p'), (23, 'i', 'a'), (16, 'm', 'l'), (26, 'n', 'd'), (28, 'n', 'g'),
                  (33, 'n', 'i'), (26, 'n', 'm'), (28, 'n', 'v'), (16, 'p', 'p'), (18, 'v', 'p')]

  lemma FirstMarks()
    ensures forall i | 0 <= i < 6 :: |KINDS[i]| > 10 && Mark(KINDS[i]) == MARKS[i]
  {
    assert |KINDS[0]| == MARKS[0].0 && KINDS[0][0] == MARKS[0].1 && KINDS[0][10] == MARKS[0].2;
    assert |KINDS[1]| == MARKS[1].0 && KINDS[1][0] == MARKS[1].1 && KINDS[1][10] == MARKS[1].2;
    assert |KINDS[2]| == MARKS[2].0 && KINDS[2][0] == MARKS[2].1 && KINDS[2][10] == MARKS[2].2;
    assert |KINDS[3]| == MARKS[3].0 && KINDS[3][0] == MARKS[3].1 && KINDS[3][10] == MARKS[3].2;
    assert |KINDS[4]| == MARKS[4].0 && KINDS[4][0] == MARKS[4].1 && KINDS[4][10] == MARKS[4].2;
    assert |KINDS[5]| == MARKS[5].0 && KINDS[5][0] == MARKS[5].1 && KINDS[5][10] == MARKS[5].2;
  }

  lemma LastMarks()
    ensures forall i | 6 <= i < 11 :: |KINDS[i]| > 10 && Mark(KINDS[i]) == MARKS[i]
  {
    assert |KINDS[6]| == MARKS[6].0 && KINDS[6][0] == MARKS[6].1 && KINDS[6][10] == MARKS[6].2;
    assert |KINDS[7]| == MARKS[7].0 && KINDS[7][0] == MARKS[7].1 && KINDS[7][10] == MARKS[7].2;
    assert |KINDS[8]| == MARKS[8].0 && KINDS[8][0] == MARKS[8].1 && KINDS[8][10] == MARKS[8].2;
    assert |KINDS[9]| == MARKS[9].0 && KINDS[9][0] == MARKS[9].1 && KINDS[9][10] == MARKS[9].2;
    assert |KINDS[10]| == MARKS[10].0 && KINDS[10][0] == MARKS[10].1 && KINDS[10][10] == MARKS[10].2;
  }

  lemma PoliciesAreEleven()
    ensures |PoliciesCrds(KINDS)| == 11
  {
    FirstMarks();
    LastMarks();
    MarksDiffer(KINDS, MARKS);
    TableSize(KINDS);
  }

  lemma MarksDiffer(kinds: seq<string>, marks: seq<(int, char, char)>)
    requires |kinds| == |marks| && forall i | 0 <= i < |kinds| :: |kinds[i]| > 10 && Mark(kinds[i]) == marks[i]
    requires forall i, j | 0 <= i < j < |marks| :: marks[i] != marks[j]
    ensures Distinct(kinds)
  {
    forall i, j | 0 <= i < j < |kinds| ensures kinds[i] != kinds[j] { assert Mark(kinds[i]) != Mark(kinds[j]); }
  }

  lemma {:induction false} TableSize(kinds: seq<string>)
    requires Distinct(kinds)
    ensures |PoliciesCrds(kinds)| == |kinds|
  {
    if kinds == [] {
    } else {
      var n := |kinds| - 1;
      var last := kinds[n] + SUFFIX;
      TableSize(kinds[..n]);
      assert PoliciesCrds(kinds) == PoliciesCrds(kinds[..n]) + {last};
      forall kind | kind in kinds[..n] ensures kind + SUFFIX != last {
        assert (kind + SUFFIX)[..|kind|] == kind && last[..|kinds[n]|] == kinds[n];
      }
    }
  }

  /** A subset of the same size is the whole. */
  lemma SameSize(a: set<string>, b: set<string>)
    ensures a <= b ==> (|a| == |b| <==> a == b)
  {
    if a <= b {
      assert b == a + (b - a);
      assert |b| == |a| + |b - a|;
    }
  }

  lemma Uncovered(table: set<string>, was: seq<Resource>, n: nat, name: string, names: seq<string>)
    requires n < |was| && PolicyNames(was[..n + 1]) == names + [name] && (name !in table || name in names)
    ensures !Covers(table, was)
  {
    NamesPrefix(was, n + 1);
    var all := PolicyNames(was);
    assert all[|names|] == name;
    if name in names {
      var i :| 0 <= i < |names| && names[i] == name;
      assert all[i] == all[|names|];
    } else {
      assert name in all;
    }
  }

  // ---- what normalising does ----------------------------------------------------------------

  /** The option is set, what was there stays first, and every other annotation stays. */
  predicate Gains(annotations: Resource, out: Resource, key: string, value: string) {
    && key in out && out[key].Str? && Carries(out[key].s, value)
    && (key in annotations ==> annotations[key].Str? && Keeps(annotations[key].s, out[key].s))
    && (out - {key} == annotations - {key})
  }

  lemma AnnotatedWithDoes(annotations: Resource, key: string, value: string)
    requires Plain(value) && AnnotatedWith(annotations, key, value).Some?
    ensures Gains(annotations, AnnotatedWith(annotations, key, value).value, key, value)
  {
    PlainCarries(value);
    if key in annotations { WithOptionCarries(annotations[key].s, value); }
  }

  lemma SyncValuePlain()
    ensures Plain(SYNC_VALUE)
  {
  }

  lemma AnnotatedDoes(annotations: Resource)
    requires Annotated(annotations).Some?
    ensures Gains(annotations, Annotated(annotations).value, SYNC_KEY, SYNC_VALUE)
  {
    SyncValuePlain();
    AnnotatedWithDoes(annotations, SYNC_KEY, SYNC_VALUE);
  }

  function AnnotationsOf(metadata: Resource): Resource {
    if "annotations" in metadata && metadata["annotations"].Obj? then metadata["annotations"].fields else map[]
  }

  lemma SyncSetDoes(metadata: Resource)
    requires SyncSet(metadata).Some?
    ensures var out := SyncSet(metadata).value;
            && (forall f | f != "annotations" :: (f in out <==> f in metadata) && (f in out ==> out[f] == metadata[f]))
            && "annotations" in out && out["annotations"].Obj?
            && Annotated(AnnotationsOf(metadata)) == Some(out["annotations"].fields)
  {
  }

  /** Every metadata field but labels and annotations stays; labels go exactly from the policies CRDs,
      which had empty ones; the annotations are the earlier ones with the option set. */
  lemma MetadataDoes(metadata: Resource)
    requires NewMetadata(metadata).Some?
    ensures var out, policies := NewMetadata(metadata).value, HasSuffix(NameOf(metadata), SUFFIX);
            && (forall f | f != "labels" && f != "annotations" ::
                  (f in out <==> f in metadata) && (f in out ==> out[f] == metadata[f]))
            && (if policies
                then "labels" !in out && EmptyObject(metadata, "labels") && EmptyObject(metadata, "annotations")
                else && ("labels" in out <==> "labels" in metadata)
                     && ("labels" in out ==> out["labels"] == metadata["labels"]))
            && "annotations" in out && out["annotations"].Obj?
            && Annotated(AnnotationsOf(metadata)) == Some(out["annotations"].fields)
  {
    if HasSuffix(NameOf(metadata), SUFFIX) {
      SyncSetDoes(Stripped(metadata).value);
      assert AnnotationsOf(Stripped(metadata).value) == map[] == AnnotationsOf(metadata);
    } else {
      SyncSetDoes(metadata);
    }
  }

  lemma MetadataGains(metadata: Resource)
    requires NewMetadata(metadata).Some?
    ensures Gains(AnnotationsOf(metadata), AnnotationsOf(NewMetadata(metadata).value), SYNC_KEY, SYNC_VALUE)
  {
    MetadataDoes(metadata);
    AnnotatedDoes(AnnotationsOf(metadata));
  }

  /** A resource that is no custom resource definition is untouched; one that is keeps everything outside
      its metadata, carries the sync option after its earlier non-blank ones, and keeps every other
      annotation. */
  lemma NormalizedDoes(r: Resource)
    requires Normalized(r).Some?
    ensures var out := Normalized(r).value;
            && (!IsCrd(r) ==> out == r)
            && (IsCrd(r) ==>
                  && out == r["metadata" := Obj(MetadataOf(out))] && NewMetadata(MetadataOf(r)) == Some(MetadataOf(out))
                  && Gains(AnnotationsOf(MetadataOf(r)), AnnotationsOf(MetadataOf(out)), SYNC_KEY, SYNC_VALUE))
  {
    if IsCrd(r) { MetadataGains(MetadataOf(r)); }
  }

  lemma MetadataOnce(metadata: Resource)
    requires HasSuffix(NameOf(metadata), SUFFIX) && NewMetadata(metadata).Some?
    ensures NewMetadata(NewMetadata(metadata).value).None?
  {
    MetadataDoes(metadata);
    assert NameOf(NewMetadata(metadata).value) == NameOf(metadata);
  }

  /** A normalised policies CRD has lost the labels the normalisation insists on. */
  lemma NormalizedOnce(r: Resource)
    requires IsPolicies(r) && Normalized(r).Some?
    ensures Normalized(Normalized(r).value).None?
  {
    MetadataOnce(MetadataOf(r));
  }

  /** Applying the normalisation to its own result is refused. */
  lemma NotTwice(table: set<string>, rs: seq<Resource>, out: seq<Resource>)
    requires Accepted(table, rs) && table != {}
    requires |out| == |rs| && forall i | 0 <= i < |rs| :: Some(out[i]) == Normalized(rs[i])
    ensures !Accepted(table, out)
  {
    var name :| name in table;
    var i := NameHasResource(rs, name);
    NormalizedOnce(rs[i]);
  }
}

/** Image pinning (`pin_images` of scripts/acquire_upstream_helm.py) and the Go side that later checks
    the pinned manifest against its inventory (catalog/runtime.go). */
module ImagePins {
  import opened Collections
  import opened JsonTrees
  import opened Text
  import NameOrder

  type Resolver = string -> string

  // ---- strings ------------------------------------------------------------------------------

  /** The text before the first `c`, or all of it. */
  function Before(s: string, c: char): string {
    if s == [] || s[0] == c then [] else [s[0]] + Before(s[1..], c)
  }

  /** The text after the first `c`. */
  function After(s: string, c: char): string {
    if s == [] then [] else if s[0] == c then s[1..] else After(s[1..], c)
  }

  predicate Contains(s: string, part: string) {
    exists i | 0 <= i <= |s| :: part <= s[i..]
  }

  /** The last position of `c`, or -1. */
  function LastIndex(s: string, c: char): (i: int)
    ensures -1 <= i < |s|
    ensures i >= 0 ==> s[i] == c
  {
    if s == [] then -1 else if s[|s| - 1] == c then |s| - 1 else LastIndex(s[..|s| - 1], c)
  }

  predicate LowerHex(c: char) { '0' <= c <= '9' || 'a' <= c <= 'f' }

  predicate AnyHex(c: char) { LowerHex(c) || 'A' <= c <= 'F' }

  const PREFIX: string := "sha256:"

  /** `DIGEST_RE.fullmatch`. */
  predicate IsDigest(d: string) {
    |d| == 71 && PREFIX <= d && forall i | 7 <= i < 71 :: LowerHex(d[i])
  }

  /** `exactDigest` of catalog/embed.go. */
  predicate GoExactDigest(value: string) {
    var v := GoTrim(value);
    |v| == 71 && PREFIX <= v && forall i | 7 <= i < 71 :: AnyHex(v[i])
  }

  /** `image_repository`. */
  function Repository(reference: string): string {
    var r := PythonStrip(reference);
    if '@' in r then Before(r, '@')
    else
      var colon := LastIndex(r, ':');
      if colon > LastIndex(r, '/') then r[..colon] else r
  }

  // ---- pinning ------------------------------------------------------------------------------

  /** A field the pinner rewrites: `image`, a string that is not blank to Python. */
  predicate IsImage(key: string, v: Json) {
    key == "image" && v.Str? && PythonStrip(v.s) != []
  }

  /** The digest a reference is pinned to: its own, or the resolver's. */
  function DigestFor(original: string, resolver: Resolver): string {
    if Contains(original, "@sha256:") then After(original, '@') else resolver(original)
  }

  function PinRef(reference: string, resolver: Resolver): string {
    var original := PythonStrip(reference);
    Repository(original) + "@" + DigestFor(original, resolver)
  }

  /** Every image of the tree gets a well-formed digest; otherwise `pin_images` raises. */
  predicate PinOk(v: Json, resolver: Resolver) {
    match v
    case Arr(items) => forall i | 0 <= i < |items| :: PinOk(items[i], resolver)
    case Obj(fields) =>
      forall k | k in fields ::
        if IsImage(k, fields[k]) then IsDigest(DigestFor(PythonStrip(fields[k].s), resolver))
        else PinOk(fields[k], resolver)
    case _ => true
  }

  /** The rewritten tree. */
  function PinValue(v: Json, resolver: Resolver): Json {
    match v
    case Arr(items) => Arr(seq(|items|, i requires 0 <= i < |items| => PinValue(items[i], resolver)))
    case Obj(fields) =>
      Obj(map k | k in fields ::
        if IsImage(k, fields[k]) then Str(PinRef(fields[k].s, resolver)) else PinValue(fields[k], resolver))
    case _ => v
  }

  /** The set returned. */
  function PinRefs(v: Json, resolver: Resolver): set<string>
    decreases v, 0
  {
    match v
    case Arr(items) => set i, r | 0 <= i < |items| && r in PinRefs(items[i], resolver) :: r
    case Obj(fields) =>
      set k, r | k in fields && r in FieldRefs(k, fields[k], resolver) :: r
    case _ => {}
  }

  function FieldRefs(k: string, f: Json, resolver: Resolver): set<string>
    decreases f, 1
  {
    if IsImage(k, f) then {PinRef(f.s, resolver)} else PinRefs(f, resolver)
  }

  /** `collectImageReferences`: what the Go side finds. */
  function Collected(v: Json): set<string>
    decreases v, 0
  {
    match v
    case Arr(items) => set i, r | 0 <= i < |items| && r in Collected(items[i]) :: r
    case Obj(fields) => set k, r | k in fields && r in CollectedField(k, fields[k]) :: r
    case _ => {}
  }

  function CollectedField(k: string, f: Json): set<string>
    decreases f, 1
  {
    (if k == "image" && f.Str? && GoTrim(f.s) != [] then {GoTrim(f.s)} else {}) + Collected(f)
  }

  /** An image value that is blank to Python and not to Go: made of the separators U+001C to U+001F
      and white space. */
  predicate SplitBlank(key: string, v: Json) {
    key == "image" && v.Str? && PythonStrip(v.s) == [] && GoTrim(v.s) != []
  }

  predicate HasSplitBlank(v: Json) {
    match v
    case Arr(items) => exists i | 0 <= i < |items| :: HasSplitBlank(items[i])
    case Obj(fields) => exists k | k in fields :: SplitBlank(k, fields[k]) || HasSplitBlank(fields[k])
    case _ => false
  }

  /** Some image reference has an empty repository, as `:tag` and `@sha256:...` do. */
  predicate HasEmptyRepository(v: Json) {
    match v
    case Arr(items) => exists i | 0 <= i < |items| :: HasEmptyRepository(items[i])
    case Obj(fields) =>
      exists k | k in fields ::
        if IsImage(k, fields[k]) then Repository(fields[k].s) == [] else HasEmptyRepository(fields[k])
    case _ => false
  }

  // ---- the inventory ------------------------------------------------------------------------

  /** `strings.Split(s, "@")`. */
  function SplitAt(s: string): seq<string>
    decreases |s|
  {
    if '@' !in s then [s] else [Before(s, '@')] + SplitAt(ShorterAfter(s))
  }

  function ShorterAfter(s: string): (r: string)
    requires '@' in s
    ensures r == After(s, '@') && |r| < |s|
  {
    if s[0] == '@' then s[1..] else ShorterAfter(s[1..])
  }

  /** The tests `ImageReferences` makes on one inventory reference. */
  predicate GoPinned(reference: string) {
    var r := GoTrim(reference);
    var parts := SplitAt(r);
    r != [] && Contains(r, "@sha256:") && |parts| == 2 && GoTrim(parts[0]) != [] && GoExactDigest(parts[1])
  }

  /** The references all pass, and no two have the same key. */
  predicate Admissible(images: seq<string>, accept: string -> bool, key: string -> string) {
    (forall i | 0 <= i < |images| :: accept(images[i])) && KeysDistinct(images, key)
  }

  /** The inventory references are all pinned and, trimmed, all different. */
  predicate InventoryOk(images: seq<string>) {
    Admissible(images, GoPinned, GoTrim)
  }

  /** The loop of `ImageReferences`: stop at the first reference that fails or was seen before. */
  method AdmitReferences(images: seq<string>, accept: string -> bool, key: string -> string)
    returns (ok: bool, refs: seq<string>)
    ensures ok <==> Admissible(images, accept, key)
    ensures ok ==> |refs| == |images| && forall i | 0 <= i < |images| :: refs[i] == key(images[i])
  {
    var seen: set<string> := {};
    refs := [];
    for n := 0 to |images|
      invariant |refs| == n && forall i | 0 <= i < n :: refs[i] == key(images[i])
      invariant forall i | 0 <= i < n :: accept(images[i])
      invariant forall x :: x in seen <==> x in refs
      invariant forall i, j | 0 <= i < j < n :: refs[i] != refs[j]
    {
      var r := key(images[n]);
      if !accept(images[n]) { return false, []; }
      if r in seen {
        ghost var i :| 0 <= i < n && refs[i] == r;
        assert key(images[i]) == key(images[n]);
        return false, [];
      }
      seen := seen + {r};
      refs := refs + [r];
    }
    ok := true;
    assert forall i, j | 0 <= i < j < |images| :: refs[i] != refs[j];
  }

  function Itself(reference: string): string { reference }

  /** `ImageReferences` on the references of an inventory document: trimmed and sorted. */
  method ImageReferences(images: seq<string>) returns (ok: bool, refs: seq<string>)
    ensures ok <==> InventoryOk(images)
    ensures ok ==> |refs| == |images| && NameOrder.Increasing(refs, Itself)
    ensures ok ==> forall x :: x in refs <==> exists i | 0 <= i < |images| :: GoTrim(images[i]) == x
  {
    var found;
    ok, found := AdmitReferences(images, GoPinned, GoTrim);
    refs := NameOrder.Sort(found, Itself);
    if ok {
      NameOrder.SortIncreasing(found, Itself);
      NameOrder.SortMember(found, Itself, "");
      forall x ensures x in refs <==> exists i | 0 <= i < |images| :: GoTrim(images[i]) == x {
        NameOrder.SortMember(found, Itself, x);
      }
    }
  }

  method AsSet(refs: seq<string>) returns (out: set<string>)
    ensures out == set i | 0 <= i < |refs| :: refs[i]
  {
    out := {};
    for n := 0 to |refs|
      invariant out == set i | 0 <= i < n :: refs[i]
    {
      out := out + {refs[n]};
    }
  }

  const RESERVED := "example.invalid"

  /** `verifyManifestImageInventory` on a manifest text and the resources it decodes to: every manifest
      image is in the inventory and conversely. */
  method VerifyInventory(text: string, resources: seq<Json>, images: seq<string>) returns (ok: bool)
    ensures ok <==> && !Contains(text, "example.invalid") && resources != [] && InventoryOk(images)
                    && forall x :: x in Collected(Arr(resources))
                                   <==> exists i | 0 <= i < |images| :: GoTrim(images[i]) == x
  {
    if Contains(text, RESERVED) || resources == [] { return false; }
    var manifest := CollectImages(Arr(resources), {});
    var refs;
    ok, refs := ImageReferences(images);
    if !ok { return; }
    var inventory := AsSet(refs);
    assert inventory == set i | 0 <= i < |images| :: GoTrim(images[i]) by {
      forall x ensures x in inventory <==> exists i | 0 <= i < |images| :: GoTrim(images[i]) == x {
        assert x in inventory <==> x in refs;
      }
    }
    ok := manifest <= inventory && inventory <= manifest;
  }

  /** `collectImageReferences`: the references found are added to those already in the map. */
  method CollectImages(v: Json, found: set<string>) returns (out: set<string>)
    ensures out == found + Collected(v)
    decreases v, 1
  {
    match v {
      case Arr(_) => out := CollectItems(v, found);
      case Obj(_) => out := CollectFields(v, found);
      case _ => out := found;
    }
  }

  method CollectItems(v: Json, found: set<string>) returns (out: set<string>)
    requires v.Arr?
    ensures out == found + Collected(v)
    decreases v, 0
  {
    var items := v.items;
    out := found;
    for n := 0 to |items|
      invariant forall r :: r in out <==> r in found || exists i | 0 <= i < n :: r in Collected(items[i])
    {
      out := CollectImages(items[n], out);
    }
    assert forall r :: r in Collected(v) <==> exists i | 0 <= i < |items| :: r in Collected(items[i]);
  }

  method CollectFields(v: Json, found: set<string>) returns (out: set<string>)
    requires v.Obj?
    ensures out == found + Collected(v)
    decreases v, 0
  {
    var fields := v.fields;
    var todo := fields.Keys;
    out := found;
    while todo != {}
      invariant todo <= fields.Keys
      invariant forall r :: r in out <==>
                  r in found || exists k | k in fields && k !in todo :: r in CollectedField(k, fields[k])
    {
      var key :| key in todo;
      var value := fields[key];
      if key == "image" && value.Str? && GoTrim(value.s) != [] { out := out + {GoTrim(value.s)}; }
      out := CollectImages(value, out);
      todo := todo - {key};
    }
    assert forall r :: r in Collected(v) <==> exists k | k in fields :: r in CollectedField(k, fields[k]);
  }

  // ---- the loops ----------------------------------------------------------------------------

  /** `pin_images`; the rewritten tree is returned instead of written in place. */
  method PinImages(v: Json, resolver: Resolver) returns (ok: bool, out: Json, pinned: set<string>)
    ensures ok <==> PinOk(v, resolver)
    ensures ok ==> out == PinValue(v, resolver) && pinned == PinRefs(v, resolver)
    decreases v, 1
  {
    match v {
      case Arr(_) => ok, out, pinned := PinItems(v, resolver);
      case Obj(_) => ok, out, pinned := PinFields(v, resolver);
      case _ => ok, out, pinned := true, v, {};
    }
  }

  method PinItems(v: Json, resolver: Resolver) returns (ok: bool, out: Json, pinned: set<string>)
    requires v.Arr?
    ensures ok <==> PinOk(v, resolver)
    ensures ok ==> out == PinValue(v, resolver) && pinned == PinRefs(v, resolver)
    decreases v, 0
  {
    pinned := {};
    var items, rewritten: seq<Json> := v.items, [];
    for n := 0 to |items|
      invariant |rewritten| == n && forall i | 0 <= i < n :: rewritten[i] == PinValue(items[i], resolver)
      invariant forall i | 0 <= i < n :: PinOk(items[i], resolver)
      invariant forall r :: r in pinned <==> exists i | 0 <= i < n :: r in PinRefs(items[i], resolver)
    {
      var one, item, refs := PinImages(items[n], resolver);
      if !one { return false, v, {}; }
      rewritten := rewritten + [item];
      pinned := pinned + refs;
    }
    ok, out := true, Arr(rewritten);
    assert rewritten == PinValue(v, resolver).items;
    forall r ensures r in pinned <==> r in PinRefs(v, resolver) {
      assert r in PinRefs(v, resolver) <==> exists i | 0 <= i < |items| :: r in PinRefs(items[i], resolver);
    }
  }

  /** The field is accepted by the pinner. */
  predicate FieldOk(k: string, f: Json, resolver: Resolver) {
    if IsImage(k, f) then IsDigest(DigestFor(PythonStrip(f.s), resolver)) else PinOk(f, resolver)
  }

  method PinFields(v: Json, resolver: Resolver) returns (ok: bool, out: Json, pinned: set<string>)
    requires v.Obj?
    ensures ok <==> PinOk(v, resolver)
    ensures ok ==> out == PinValue(v, resolver) && pinned == PinRefs(v, resolver)
    decreases v, 0
  {
    pinned := {};
    var fields := v.fields;
    var todo, rewritten := fields.Keys, fields;
    while todo != {}
      invariant todo <= fields.Keys && rewritten.Keys == fields.Keys
      invariant forall k | k in fields && k !in todo :: rewritten[k] == PinValue(v, resolver).fields[k]
      invariant forall k | k in fields && k !in todo :: FieldOk(k, fields[k], resolver)
      invariant forall r :: r in pinned <==>
                  exists k | k in fields && k !in todo :: r in FieldRefs(k, fields[k], resolver)
    {
      var key :| key in todo;
      var item := fields[key];
      var one, child, refs := PinField(v, key, resolver);
      if !one { return false, v, {}; }
      rewritten := rewritten[key := child];
      pinned := pinned + refs;
      todo := todo - {key};
    }
    ok, out := true, Obj(rewritten);
    FieldsDone(v, resolver, rewritten, pinned);
  }

  /** All fields have had their turn. */
  lemma FieldsDone(v: Json, resolver: Resolver, rewritten: map<string, Json>, pinned: set<string>)
    requires v.Obj? && rewritten.Keys == v.fields.Keys
    requires forall k | k in v.fields ::
               rewritten[k] == PinValue(v, resolver).fields[k] && FieldOk(k, v.fields[k], resolver)
    requires forall r :: r in pinned <==> exists k | k in v.fields :: r in FieldRefs(k, v.fields[k], resolver)
    ensures PinOk(v, resolver) && Obj(rewritten) == PinValue(v, resolver) && pinned == PinRefs(v, resolver)
  {
    assert rewritten == PinValue(v, resolver).fields;
    forall r ensures r in pinned <==> r in PinRefs(v, resolver) {
      assert r in PinRefs(v, resolver) <==> exists k | k in v.fields :: r in FieldRefs(k, v.fields[k], resolver);
    }
  }

  /** One turn of the loop over a dictionary. */
  method PinField(v: Json, key: string, resolver: Resolver) returns (ok: bool, out: Json, refs: set<string>)
    requires v.Obj? && key in v.fields
    ensures ok <==> FieldOk(key, v.fields[key], resolver)
    ensures ok ==> out == PinValue(v, resolver).fields[key] && refs == FieldRefs(key, v.fields[key], resolver)
    decreases v, 0, 0
  {
    var item := v.fields[key];
    if IsImage(key, item) {
      var original := PythonStrip(item.s);
      var digest := DigestFor(original, resolver);
      var rewritten := Repository(original) + "@" + digest;
      ok, out, refs := IsDigest(digest), Str(rewritten), {rewritten};
    } else {
      ok, out, refs := PinImages(item, resolver);
    }
  }
}

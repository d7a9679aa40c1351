/** The pinner and the Go collector agree on every tree, except exactly where their notions of blank
    differ; and pinning is idempotent. */
module PinAgreement {
  import opened JsonTrees
  import opened Text
  import opened ImagePins

  // ---- references ---------------------------------------------------------------------------

  lemma {:induction false} BeforeShape(s: string, c: char)
    ensures c !in Before(s, c) && Before(s, c) <= s
  {
    if s != [] && s[0] != c { BeforeShape(s[1..], c); }
  }

  /** A text without `c`, then `c`, then anything, splits there. */
  lemma {:induction false} SplitsAtFirst(a: string, c: char, b: string)
    requires c !in a
    ensures Before(a + [c] + b, c) == a && After(a + [c] + b, c) == b
  {
    if a == [] {
      assert a + [c] + b == [c] + b;
    } else {
      assert (a + [c] + b)[1..] == a[1..] + [c] + b;
      SplitsAtFirst(a[1..], c, b);
    }
  }

  lemma DigestShape(d: string)
    requires IsDigest(d)
    ensures '@' !in d && Tight(d, IsGoSpace) && Tight(d, IsPythonSpace) && d != []
    ensures d[|d| - 1] == d[70]
  {
    assert d[..7] == PREFIX;
    assert forall i | 0 <= i < 7 :: d[i] == PREFIX[i];
    assert LowerHex(d[70]);
  }

  lemma {:induction false} LastIndexBound(s: string, c: char, n: nat)
    requires LastIndex(s, c) < n <= |s|
    ensures c !in s[n..]
  {
    if n < |s| {
      LastIndexBound(s[..|s| - 1], c, n);
      assert s[n..] == s[..|s| - 1][n..] + [s[|s| - 1]];
    }
  }

  /** A repository has no `@` and, unless empty, starts as the stripped reference does. */
  lemma RepositoryShape(reference: string)
    ensures var repo := Repository(reference);
            '@' !in repo && repo <= PythonStrip(reference)
  {
    var r := PythonStrip(reference);
    BeforeShape(r, '@');
  }

  /** `x` is a repository, an `@` and a digest. */
  predicate IsPin(x: string, repo: string, d: string) {
    '@' !in repo && IsDigest(d) && x == repo + "@" + d && (repo == [] || !IsPythonSpace(repo[0]))
  }

  lemma PinnedShape(reference: string, resolver: Resolver)
    requires IsDigest(DigestFor(PythonStrip(reference), resolver))
    ensures IsPin(PinRef(reference, resolver), Repository(reference), DigestFor(PythonStrip(reference), resolver))
  {
    var original := PythonStrip(reference);
    TrimShape(reference, IsPythonSpace);
    TrimTight(original, IsPythonSpace);
    RepositoryShape(reference);
    assert Repository(original) == Repository(reference);
  }

  lemma PinIsTight(x: string, repo: string, d: string)
    requires IsPin(x, repo, d)
    ensures x != [] && GoTrim(x) == x && PythonStrip(x) == x
    ensures Contains(x, "@sha256:") && Before(x, '@') == repo && After(x, '@') == d
  {
    DigestShape(d);
    assert x[|x| - 1] == d[|d| - 1];
    assert repo != [] ==> x[0] == repo[0];
    assert repo == [] ==> x[0] == '@';
    TrimTight(x, IsGoSpace);
    TrimTight(x, IsPythonSpace);
    SplitsAtFirst(repo, '@', d);
    assert x[|repo|..] == "@" + d;
    assert "@sha256:" == "@" + PREFIX;
    assert "@sha256:" <= x[|repo|..];
  }

  /** A pin passes the Go digest test exactly when its repository is not empty. */
  lemma PinPassesGo(x: string, repo: string, d: string)
    requires IsPin(x, repo, d)
    ensures GoPinned(x) <==> repo != []
  {
    PinIsTight(x, repo, d);
    DigestShape(d);
    TrimTight(d, IsGoSpace);
    assert '@' in x by { assert x[|repo|] == '@'; }
    assert SplitAt(x) == [repo] + SplitAt(d) && SplitAt(d) == [d];
    TrimShape(repo, IsGoSpace);
    assert repo != [] ==> repo[0] in repo;
    assert GoExactDigest(d) by { assert forall i | 7 <= i < 71 :: LowerHex(d[i]); }
  }

  /** Pinning a pin gives the pin back, without a resolver. */
  lemma PinIsFixed(x: string, repo: string, d: string, resolver: Resolver)
    requires IsPin(x, repo, d)
    ensures PythonStrip(x) == x && DigestFor(x, resolver) == d && PinRef(x, resolver) == x
  {
    PinIsTight(x, repo, d);
    assert '@' in x by { assert x[|repo|] == '@'; }
  }

  // ---- trees --------------------------------------------------------------------------------

  /** One field: what the collector finds in the rewritten field is what the pinner returned for it,
      and a text without `@` besides when the field is a split blank. */
  lemma {:induction false} FieldAgrees(k: string, f: Json, resolver: Resolver)
    requires if IsImage(k, f) then IsDigest(DigestFor(PythonStrip(f.s), resolver)) else PinOk(f, resolver)
    ensures var f' := if IsImage(k, f) then Str(PinRef(f.s, resolver)) else PinValue(f, resolver);
            && (SplitBlank(k, f) || HasSplitBlank(f) ==>
                  exists x :: x in CollectedField(k, f') && '@' !in x)
            && (!SplitBlank(k, f) && !HasSplitBlank(f) ==> CollectedField(k, f') == FieldRefs(k, f, resolver))
    decreases f, 1
  {
    if IsImage(k, f) {
      PinnedShape(f.s, resolver);
      PinIsTight(PinRef(f.s, resolver), Repository(f.s), DigestFor(PythonStrip(f.s), resolver));
    } else {
      TreeAgrees(f, resolver);
      if k == "image" && f.Str? {
        TrimShape(f.s, IsPythonSpace);
        TrimShape(f.s, IsGoSpace);
        if SplitBlank(k, f) {
          var x := GoTrim(f.s);
          assert !IsPythonSpace('@') && '@' !in f.s;
          assert x in CollectedField(k, f);
        }
      }
    }
  }

  /** A whole tree: either the two sets are equal, or a split blank put a text without `@` into the
      collected set. */
  lemma {:induction false} TreeAgrees(v: Json, resolver: Resolver)
    requires PinOk(v, resolver)
    ensures HasSplitBlank(v) ==> exists x :: x in Collected(PinValue(v, resolver)) && '@' !in x
    ensures !HasSplitBlank(v) ==> Collected(PinValue(v, resolver)) == PinRefs(v, resolver)
    decreases v, 0
  {
    var out := PinValue(v, resolver);
    match v
    case Arr(items) =>
      forall i | 0 <= i < |items|
        ensures HasSplitBlank(items[i]) ==> exists x :: x in Collected(out.items[i]) && '@' !in x
        ensures !HasSplitBlank(items[i]) ==> Collected(out.items[i]) == PinRefs(items[i], resolver)
      {
        TreeAgrees(items[i], resolver);
      }
      if HasSplitBlank(v) {
        var i :| 0 <= i < |items| && HasSplitBlank(items[i]);
        var x :| x in Collected(out.items[i]) && '@' !in x;
        assert x in Collected(out);
      } else {
        forall r ensures r in Collected(out) <==> r in PinRefs(v, resolver) {
          assert r in Collected(out) <==> exists i | 0 <= i < |items| :: r in Collected(out.items[i]);
          assert r in PinRefs(v, resolver) <==> exists i | 0 <= i < |items| :: r in PinRefs(items[i], resolver);
        }
      }
    case Obj(fields) =>
      forall k | k in fields
        ensures SplitBlank(k, fields[k]) || HasSplitBlank(fields[k]) ==>
                  exists x :: x in CollectedField(k, out.fields[k]) && '@' !in x
        ensures !SplitBlank(k, fields[k]) && !HasSplitBlank(fields[k]) ==>
                  CollectedField(k, out.fields[k]) == FieldRefs(k, fields[k], resolver)
      {
        FieldAgrees(k, fields[k], resolver);
      }
      if HasSplitBlank(v) {
        var k :| k in fields && (SplitBlank(k, fields[k]) || HasSplitBlank(fields[k]));
        var x :| x in CollectedField(k, out.fields[k]) && '@' !in x;
        assert x in Collected(out);
      } else {
        forall r ensures r in Collected(out) <==> r in PinRefs(v, resolver) {
          assert r in Collected(out) <==> exists k | k in fields :: r in CollectedField(k, out.fields[k]);
          assert r in PinRefs(v, resolver) <==> exists k | k in fields :: r in FieldRefs(k, fields[k], resolver);
        }
      }
    case _ =>
  }

  /** Every returned reference is a pin, and a tree has a reference with an empty repository exactly
      when it returns one. */
  lemma {:induction false} RefsArePins(v: Json, resolver: Resolver)
    requires PinOk(v, resolver)
    ensures forall x | x in PinRefs(v, resolver) :: exists repo, d :: IsPin(x, repo, d)
    ensures HasEmptyRepository(v) <==> exists x | x in PinRefs(v, resolver) :: !GoPinned(x)
    decreases v
  {
    match v
    case Arr(items) =>
      forall i | 0 <= i < |items| { RefsArePins(items[i], resolver); }
      forall x ensures x in PinRefs(v, resolver) <==> exists i | 0 <= i < |items| :: x in PinRefs(items[i], resolver) {}
    case Obj(fields) =>
      forall k | k in fields
        ensures forall x | x in FieldRefs(k, fields[k], resolver) :: exists repo, d :: IsPin(x, repo, d)
        ensures (if IsImage(k, fields[k]) then Repository(fields[k].s) == [] else HasEmptyRepository(fields[k]))
                <==> exists x | x in FieldRefs(k, fields[k], resolver) :: !GoPinned(x)
      {
        if IsImage(k, fields[k]) {
          var s := fields[k].s;
          PinnedShape(s, resolver);
          PinPassesGo(PinRef(s, resolver), Repository(s), DigestFor(PythonStrip(s), resolver));
        } else {
          RefsArePins(fields[k], resolver);
        }
      }
      forall x
        ensures x in PinRefs(v, resolver) <==> exists k | k in fields :: x in FieldRefs(k, fields[k], resolver)
      {
      }
    case _ =>
  }

  /** Pin/collect agreement, with its exact condition: the set `pin_images` returns is what the Go
      collector finds in the rewritten tree if and only if no image value is a split blank. */
  lemma PinnedIffCollected(v: Json, resolver: Resolver)
    requires PinOk(v, resolver)
    ensures Collected(PinValue(v, resolver)) == PinRefs(v, resolver) <==> !HasSplitBlank(v)
  {
    TreeAgrees(v, resolver);
    if HasSplitBlank(v) {
      var x :| x in Collected(PinValue(v, resolver)) && '@' !in x;
      RefsArePins(v, resolver);
    }
  }

  /** The inventory written from the returned set passes the Go check of the rewritten manifest
      if and only if there is neither a split blank nor an empty repository. */
  lemma InventoryVerifiesIff(v: Json, resolver: Resolver, images: seq<string>)
    requires PinOk(v, resolver)
    requires forall x :: x in images <==> x in PinRefs(v, resolver)
    requires forall i, j | 0 <= i < j < |images| :: images[i] != images[j]
    ensures (InventoryOk(images)
             && Collected(PinValue(v, resolver)) == set i | 0 <= i < |images| :: GoTrim(images[i]))
            <==> !HasSplitBlank(v) && !HasEmptyRepository(v)
  {
    RefsArePins(v, resolver);
    PinnedIffCollected(v, resolver);
    forall i | 0 <= i < |images| ensures GoTrim(images[i]) == images[i] {
      assert images[i] in PinRefs(v, resolver);
      var repo, d :| IsPin(images[i], repo, d);
      PinIsTight(images[i], repo, d);
    }
    var inventory := set i | 0 <= i < |images| :: GoTrim(images[i]);
    assert inventory == PinRefs(v, resolver) by {
      forall x | x in PinRefs(v, resolver) ensures x in inventory {
        var i :| 0 <= i < |images| && images[i] == x;
        assert GoTrim(images[i]) == x;
      }
    }
    assert InventoryOk(images) <==> forall i | 0 <= i < |images| :: GoPinned(images[i]);
    if HasEmptyRepository(v) {
      var x :| x in PinRefs(v, resolver) && !GoPinned(x);
      var i :| 0 <= i < |images| && images[i] == x;
      assert !GoPinned(images[i]);
    }
  }

  /** A second pinning succeeds, changes nothing, returns the same set, and asks no resolver: whatever
      resolver it is given makes no difference. */
  lemma {:induction false} PinningIsIdempotent(v: Json, resolver: Resolver, other: Resolver)
    requires PinOk(v, resolver)
    ensures var out := PinValue(v, resolver);
            PinOk(out, other) && PinValue(out, other) == out && PinRefs(out, other) == PinRefs(v, resolver)
    decreases v
  {
    var out := PinValue(v, resolver);
    match v
    case Arr(items) =>
      forall i | 0 <= i < |items|
        ensures PinOk(out.items[i], other) && PinValue(out.items[i], other) == out.items[i]
        ensures PinRefs(out.items[i], other) == PinRefs(items[i], resolver)
      {
        PinningIsIdempotent(items[i], resolver, other);
      }
      assert PinValue(out, other).items == out.items;
      forall r ensures r in PinRefs(out, other) <==> r in PinRefs(v, resolver) {
        assert r in PinRefs(out, other) <==> exists i | 0 <= i < |items| :: r in PinRefs(out.items[i], other);
        assert r in PinRefs(v, resolver) <==> exists i | 0 <= i < |items| :: r in PinRefs(items[i], resolver);
      }
    case Obj(fields) =>
      forall k | k in fields
        ensures if IsImage(k, out.fields[k]) then IsDigest(DigestFor(PythonStrip(out.fields[k].s), other))
                else PinOk(out.fields[k], other)
        ensures PinValue(out, other).fields[k] == out.fields[k]
        ensures FieldRefs(k, out.fields[k], other) == FieldRefs(k, fields[k], resolver)
      {
        if IsImage(k, fields[k]) {
          var s := fields[k].s;
          PinnedShape(s, resolver);
          var x, repo, d := PinRef(s, resolver), Repository(s), DigestFor(PythonStrip(s), resolver);
          PinIsTight(x, repo, d);
          PinIsFixed(x, repo, d, other);
        } else {
          PinningIsIdempotent(fields[k], resolver, other);
        }
      }
      assert PinValue(out, other).fields == out.fields;
      forall r ensures r in PinRefs(out, other) <==> r in PinRefs(v, resolver) {
        assert r in PinRefs(out, other) <==> exists k | k in out.fields :: r in FieldRefs(k, out.fields[k], other);
        assert r in PinRefs(v, resolver) <==> exists k | k in fields :: r in FieldRefs(k, fields[k], resolver);
      }
    case _ =>
  }

  // ---- where the two sides part -------------------------------------------------------------

  /** `{"image": text}` */
  function ImageTree(text: string): Json { Obj(map["image" := Str(text)]) }

  lemma ImageTreeFields(text: string)
    ensures Collected(ImageTree(text)) == CollectedField("image", Str(text))
  {
    var fields := ImageTree(text).fields;
    assert forall k | k in fields :: k == "image";
    assert "image" in fields && fields["image"] == Str(text);
  }

  /** `{"image": "\\u001c"}` is blank to the pinner, which leaves it alone and returns nothing, and an image
      to the Go collector. */
  lemma SeparatorImageSplits(resolver: Resolver)
    ensures var v := ImageTree("\U{1C}");
            && PinOk(v, resolver) && HasSplitBlank(v)
            && PinRefs(v, resolver) == {} && Collected(PinValue(v, resolver)) == {"\U{1C}"}
  {
    var text := "\U{1C}";
    var v := ImageTree(text);
    assert "image" in v.fields;
    TrimShape(text, IsPythonSpace);
    TrimTight(text, IsGoSpace);
    assert AllSpace(text, IsPythonSpace);
    assert PinValue(v, resolver).fields == v.fields;
    ImageTreeFields(text);
  }

  /** `{"image": ":tag"}` is pinned to a reference with an empty repository, which the Go inventory check
      refuses. */
  lemma TagOnlyImageRefused(resolver: Resolver)
    requires IsDigest(resolver(":tag"))
    ensures var v := ImageTree(":tag");
            && PinOk(v, resolver) && !HasSplitBlank(v) && HasEmptyRepository(v)
            && PinRefs(v, resolver) == {"@" + resolver(":tag")}
            && !InventoryOk(["@" + resolver(":tag")])
  {
    var text, d := ":tag", resolver(":tag");
    var v := ImageTree(text);
    TrimTight(text, IsPythonSpace);
    TagOnlyShape();
    assert Repository(text) + "@" + d == "@" + d;
    assert PinRef(text, resolver) == "@" + d;
    assert "image" in v.fields && FieldRefs("image", Str(text), resolver) == {"@" + d};
    PinnedShape(text, resolver);
    PinPassesGo("@" + d, [], d);
    assert ["@" + d][0] == "@" + d;
  }

  lemma TagOnlyShape()
    ensures PythonStrip(":tag") == ":tag" && Repository(":tag") == [] && !Contains(":tag", "@sha256:")
  {
    var text := ":tag";
    TrimTight(text, IsPythonSpace);
    assert text[..3] == ":ta" && text[..2] == ":t" && text[..1] == ":";
    assert LastIndex(text[..1], ':') == 0;
    assert LastIndex(text[..1], '/') == -1 by { assert text[..1][..0] == []; }
    assert LastIndex(text[..2], ':') == 0 && LastIndex(text[..2], '/') == -1 by { assert text[..2][..1] == text[..1]; }
    assert LastIndex(text[..3], ':') == 0 && LastIndex(text[..3], '/') == -1 by { assert text[..3][..2] == text[..2]; }
    assert LastIndex(text, ':') == 0 && LastIndex(text, '/') == -1;
    assert text[..0] == [];
  }
}

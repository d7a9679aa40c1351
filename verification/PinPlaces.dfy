/** What a pin is made of and where it stands: the repository of every form of reference, and the place of
    every value in the rewritten tree. */
module PinPlaces {
  import opened Collections
  import opened JsonTrees
  import opened Text
  import opened ImagePins
  import opened PinAgreement

  // ---- the repository of a reference --------------------------------------------------------

  lemma {:induction false} LastIndexIs(s: string, c: char, i: nat)
    requires i < |s| && s[i] == c && c !in s[i + 1..]
    ensures LastIndex(s, c) == i
  {
    var n := |s| - 1;
    if i < n {
      assert s[n] == s[i + 1..][n - i - 1];
      var fewer, after := s[..n][i + 1..], s[i + 1..];
      assert forall k | 0 <= k < |fewer| :: fewer[k] == after[k];
      LastIndexIs(s[..n], c, i);
    }
  }

  lemma NoDigest(s: string)
    requires '@' !in s
    ensures !Contains(s, "@sha256:")
  {
    forall i | 0 <= i <= |s| ensures !("@sha256:" <= s[i..]) {
      if i < |s| { assert s[i..][0] == s[i] && s[i] in s; }
    }
  }

  /** A tag is dropped, a registry with its port and every path before it are not. */
  lemma TagIsDropped(name: string, tag: string, resolver: Resolver)
    requires var r := name + ":" + tag; PythonStrip(r) == r && '@' !in r
    requires '/' !in tag && ':' !in tag
    ensures var r := name + ":" + tag; Repository(r) == name && PinRef(r, resolver) == name + "@" + resolver(r)
  {
    var r := name + ":" + tag;
    var n := |name|;
    assert r[n + 1..] == tag && r[n] == ':' && r[..n] == name;
    LastIndexIs(r, ':', n);
    assert forall i | n < i < |r| :: r[i] == tag[i - n - 1] && tag[i - n - 1] in tag;
    NoDigest(r);
  }

  /** A reference without `@` whose every colon has a slash after it is its own repository. */
  lemma UntaggedIsKept(r: string, resolver: Resolver)
    requires PythonStrip(r) == r && '@' !in r
    requires forall i | 0 <= i < |r| && r[i] == ':' :: '/' in r[i..]
    ensures Repository(r) == r && PinRef(r, resolver) == r + "@" + resolver(r)
  {
    var colon := LastIndex(r, ':');
    if colon > LastIndex(r, '/') { LastIndexBound(r, '/', colon); }
    NoDigest(r);
  }

  /** A reference with a digest is cut at its first `@`, and one with a sha256 digest keeps it. */
  lemma DigestIsCut(name: string, rest: string, resolver: Resolver)
    requires var r := name + "@" + rest; PythonStrip(r) == r && '@' !in name
    ensures var r := name + "@" + rest;
            && Repository(r) == name
            && ("sha256:" <= rest ==> PinRef(r, resolver) == r)
  {
    var r := name + "@" + rest;
    SplitsAtFirst(name, '@', rest);
    assert r == name + ['@'] + rest && r[|name|] == '@';
    if "sha256:" <= rest {
      assert r[|name|..] == "@" + rest;
      assert "@sha256:" <= r[|name|..];
      assert Contains(r, "@sha256:");
    }
  }

  // ---- the references the Go side admits ----------------------------------------------------

  /** `sha256:` and 64 hexadecimal digits of either case. */
  predicate GoDigest(d: string) {
    |d| == 71 && "sha256:" <= d && forall i | 7 <= i < 71 :: AnyHex(d[i])
  }

  lemma GoDigestTight(d: string)
    requires GoDigest(d)
    ensures GoTrim(d) == d
  {
    assert d[0] == "sha256:"[0] && AnyHex(d[70]);
    TrimTight(d, IsGoSpace);
  }

  lemma {:induction false} CutAtFirst(s: string, c: char)
    requires c in s
    ensures s == Before(s, c) + [c] + After(s, c) && c !in Before(s, c)
  {
    if s[0] != c {
      CutAtFirst(s[1..], c);
      assert s == [s[0]] + s[1..];
    }
  }

  lemma TwoParts(r: string)
    requires |SplitAt(r)| == 2
    ensures '@' in r && SplitAt(r) == [Before(r, '@'), After(r, '@')] && '@' !in After(r, '@')
    ensures r == Before(r, '@') + "@" + After(r, '@') && '@' !in Before(r, '@')
  {
    assert '@' in r;
    CutAtFirst(r, '@');
    var rest := ShorterAfter(r);
    assert SplitAt(rest) == SplitAt(r)[1..];
    assert '@' in rest ==> |SplitAt(rest)| == 1 + |SplitAt(ShorterAfter(rest))|;
    NeverEmpty(rest);
    if '@' in rest { NeverEmpty(ShorterAfter(rest)); }
  }

  lemma NeverEmpty(s: string)
    ensures |SplitAt(s)| >= 1
  {
  }

  /** The sign found is the only one, so the digest begins right after it. */
  lemma DigestFollows(repo: string, d: string)
    requires '@' !in repo && '@' !in d && Contains(repo + "@" + d, "@sha256:")
    ensures "sha256:" <= d
  {
    var r := repo + "@" + d;
    var i :| 0 <= i <= |r| && "@sha256:" <= r[i..];
    assert r[i] == r[i..][0] == '@';
    assert forall j | 0 <= j < |repo| :: r[j] == repo[j] && repo[j] in repo;
    assert forall j | |repo| < j < |r| :: r[j] == d[j - |repo| - 1] && d[j - |repo| - 1] in d;
    assert i == |repo|;
    assert r[i..][1..] == d;
    assert "sha256:" == "@sha256:"[1..] <= r[i..][1..];
  }

  lemma AdmittedShape(r: string)
    requires Tight(r, IsGoSpace) && |SplitAt(r)| == 2 && Contains(r, "@sha256:") && GoExactDigest(SplitAt(r)[1])
    ensures GoDigest(After(r, '@'))
  {
    TwoParts(r);
    var repo, d := Before(r, '@'), After(r, '@');
    DigestFollows(repo, d);
    assert d[|d| - 1] == r[|r| - 1] && d[0] == "sha256:"[0];
    TrimTight(d, IsGoSpace);
  }

  lemma PinAdmitted(r: string, repo: string, d: string)
    requires r == repo + "@" + d && '@' !in repo && '@' !in d && GoDigest(d)
    ensures SplitAt(r) == [repo, d] && Contains(r, "@sha256:") && GoExactDigest(d)
  {
    GoDigestTight(d);
    SplitsAtFirst(repo, '@', d);
    assert r == repo + ['@'] + d && r[|repo|] == '@';
    assert SplitAt(r) == [repo] + SplitAt(d) && SplitAt(d) == [d];
    assert r[|repo|..] == "@" + d;
    assert "@sha256:" == "@" + "sha256:" <= r[|repo|..];
  }

  /** `ImageReferences` admits exactly the references that, trimmed, are a name that is not blank, one `@`
      and a digest. */
  lemma GoPinnedIff(reference: string)
    ensures GoPinned(reference)
            <==> exists repo, d :: && GoTrim(reference) == repo + "@" + d && '@' !in repo && '@' !in d
                                   && GoTrim(repo) != [] && GoDigest(d)
  {
    var r := GoTrim(reference);
    TrimShape(reference, IsGoSpace);
    if GoPinned(reference) {
      TwoParts(r);
      AdmittedShape(r);
      assert r == Before(r, '@') + "@" + After(r, '@');
    }
    if repo, d :| r == repo + "@" + d && '@' !in repo && '@' !in d && GoTrim(repo) != [] && GoDigest(d) {
      PinAdmitted(r, repo, d);
    }
  }

  // ---- the place of every value -------------------------------------------------------------

  datatype Step = Item(index: nat) | Field(name: string)

  /** The value a path leads to. */
  function At(v: Json, path: seq<Step>): Option<Json> {
    if path == [] then Some(v)
    else match path[0]
         case Item(i) => if v.Arr? && i < |v.items| then At(v.items[i], path[1..]) else None
         case Field(k) => if v.Obj? && k in v.fields then At(v.fields[k], path[1..]) else None
  }

  /** The path ends in a field that is pinned. */
  predicate ImageAt(v: Json, path: seq<Step>) {
    && path != [] && path[|path| - 1] == Field("image")
    && At(v, path).Some? && IsImage("image", At(v, path).value)
  }

  lemma ImageBelow(v: Json, path: seq<Step>, x: Json)
    requires |path| > 1 && At(v, path) == At(x, path[1..])
    ensures ImageAt(v, path) <==> ImageAt(x, path[1..])
  {
    assert path[1..][|path[1..]| - 1] == path[|path| - 1];
  }

  lemma NothingInText(s: string, path: seq<Step>)
    requires path != []
    ensures At(Str(s), path).None?
  {
  }

  /** By place: pinning leaves every path and every value where it was, except that an image field holds the
      pin of what it held. */
  lemma {:induction false} PinnedInPlace(v: Json, resolver: Resolver, path: seq<Step>)
    ensures At(PinValue(v, resolver), path)
            == if At(v, path).None? then None
               else if ImageAt(v, path) then Some(Str(PinRef(At(v, path).value.s, resolver)))
               else Some(PinValue(At(v, path).value, resolver))
    decreases |path|
  {
    if path == [] {
    } else {
      var rest, out := path[1..], PinValue(v, resolver);
      match path[0]
      case Item(i) =>
        if v.Arr? && i < |v.items| {
          PinnedInPlace(v.items[i], resolver, rest);
          if rest != [] { ImageBelow(v, path, v.items[i]); }
        }
      case Field(k) =>
        if v.Obj? && k in v.fields {
          if IsImage(k, v.fields[k]) {
            if rest != [] {
              NothingInText(v.fields[k].s, rest);
              NothingInText(PinRef(v.fields[k].s, resolver), rest);
            }
          } else {
            PinnedInPlace(v.fields[k], resolver, rest);
            if rest != [] { ImageBelow(v, path, v.fields[k]); }
          }
        }
    }
  }
}

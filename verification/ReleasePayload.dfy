/** The canonical catalog release payload (catalog/embed.go): one payload for a set of components,
    whatever order a map or an unstable sort yields them in. */
module ReleasePayload {
  import opened Collections
  import opened Text
  import opened NameOrder

  /** A component; `body` stands for the fields the payload only carries. */
  datatype Component = Component(apiVersion: string, kind: string, name: string, wave: int, body: string)

  type Items = map<string, Component>

  /** JSON encoding and decoding of a component list, and the digest of the encoding. */
  datatype Codec = Codec(encode: seq<Component> -> string, decode: string -> Option<seq<Component>>,
                         hash: string -> string)

  /** Decoding undoes encoding. */
  ghost predicate RoundTrips(w: Codec) {
    forall cs :: w.decode(w.encode(cs)) == Some(cs)
  }

  predicate Precedes(a: Component, b: Component) {
    if a.wave == b.wave then Below(a.name, b.name) else a.wave < b.wave
  }

  /** Keyed by their names, as every catalog map is. */
  predicate Keyed(m: Items) {
    forall k | k in m :: m[k].name == k
  }

  predicate InOrder(cs: seq<Component>) {
    forall i, j | 0 <= i < j < |cs| :: Precedes(cs[i], cs[j])
  }

  ghost predicate Arranges(cs: seq<Component>, m: Items) {
    InOrder(cs) && forall c :: c in cs <==> c.name in m && m[c.name] == c
  }

  // ---- the order ----------------------------------------------------------------------------

  lemma PrecedesIrreflexive(a: Component)
    ensures !Precedes(a, a)
  {
    BelowIrreflexive(a.name);
  }

  lemma PrecedesTransitive(a: Component, b: Component, c: Component)
    requires Precedes(a, b) && Precedes(b, c)
    ensures Precedes(a, c)
  {
    if a.wave == b.wave == c.wave { BelowTransitive(a.name, b.name, c.name); }
  }

  lemma PrecedesTotal(a: Component, b: Component)
    requires a.name != b.name
    ensures Precedes(a, b) || Precedes(b, a)
  {
    BelowTotal(a.name, b.name);
  }

  /** An arrangement of the same components is the same list: no sort has a choice. */
  lemma {:induction false} InOrderUnique(xs: seq<Component>, ys: seq<Component>)
    requires InOrder(xs) && InOrder(ys) && forall c :: c in xs <==> c in ys
    ensures xs == ys
  {
    var first := if |ys| > 0 then ys[0] else Component("", "", "", 0, "");
    assert |ys| > 0 ==> first in ys;
    if xs == [] {
    } else {
      assert xs[0] in xs;
      HeadsAgree(xs, ys);
      forall c ensures c in xs[1..] <==> c in ys[1..] {
        if c in xs[1..] { StaysInRest(xs, ys, c); }
        if c in ys[1..] { StaysInRest(ys, xs, c); }
      }
      InOrderUnique(xs[1..], ys[1..]);
      assert xs == [xs[0]] + xs[1..] && ys == [ys[0]] + ys[1..];
    }
  }

  lemma HeadsAgree(xs: seq<Component>, ys: seq<Component>)
    requires InOrder(xs) && InOrder(ys) && xs != [] && ys != [] && xs[0] in ys && ys[0] in xs
    ensures xs[0] == ys[0]
  {
    var i :| 0 <= i < |xs| && xs[i] == ys[0];
    var j :| 0 <= j < |ys| && ys[j] == xs[0];
    if i > 0 && j > 0 {
      PrecedesTransitive(xs[0], ys[0], xs[0]);
      PrecedesIrreflexive(xs[0]);
    }
  }

  lemma StaysInRest(xs: seq<Component>, ys: seq<Component>, c: Component)
    requires InOrder(xs) && xs != [] && ys != [] && xs[0] == ys[0] && c in xs[1..] && (forall d | d in xs :: d in ys)
    ensures c in ys[1..]
  {
    var i :| 0 <= i < |xs[1..]| && xs[1..][i] == c;
    assert xs[i + 1] == c && Precedes(xs[0], c);
    PrecedesIrreflexive(c);
    assert c in xs && c in ys;
    var j :| 0 <= j < |ys| && ys[j] == c;
    assert ys[1..][j - 1] == c;
  }

  /** `Sorted`: the components taken from the map in any order at all. */
  method Sorted(m: Items) returns (out: seq<Component>)
    requires Keyed(m)
    ensures Arranges(out, m)
    ensures forall i, j | 0 <= i < j < |out| ::
              out[i].wave < out[j].wave || (out[i].wave == out[j].wave && Below(out[i].name, out[j].name))
  {
    out := [];
    var rest := m.Keys;
    while rest != {}
      invariant rest <= m.Keys && InOrder(out)
      invariant forall c :: c in out <==> c.name in m && c.name !in rest && m[c.name] == c
    {
      var k :| k in rest;
      out := Place(out, m[k]);
      rest := rest - {k};
    }
  }

  method Place(cs: seq<Component>, c: Component) returns (out: seq<Component>)
    requires InOrder(cs) && forall d | d in cs :: d.name != c.name
    ensures InOrder(out) && forall d :: d in out <==> d == c || d in cs
  {
    var i := |cs|;
    while i > 0 && Precedes(c, cs[i - 1])
      invariant 0 <= i <= |cs|
      invariant forall j | i <= j < |cs| :: Precedes(c, cs[j])
    {
      i := i - 1;
    }
    out := cs[..i] + [c] + cs[i..];
    forall j | 0 <= j < i ensures Precedes(cs[j], c) {
      assert cs[i - 1] in cs;
      PrecedesTotal(cs[i - 1], c);
      if j < i - 1 { PrecedesTransitive(cs[j], cs[i - 1], c); }
    }
    PlacedInOrder(cs, c, i);
    assert forall d :: d in cs <==> d in cs[..i] || d in cs[i..] by { assert cs == cs[..i] + cs[i..]; }
  }

  lemma PlacedInOrder(cs: seq<Component>, c: Component, i: nat)
    requires InOrder(cs) && i <= |cs|
    requires (forall j | 0 <= j < i :: Precedes(cs[j], c)) && (forall j | i <= j < |cs| :: Precedes(c, cs[j]))
    ensures InOrder(cs[..i] + [c] + cs[i..])
  {
    var out := cs[..i] + [c] + cs[i..];
    forall a, b | 0 <= a < b < |out| ensures Precedes(out[a], out[b]) {
      assert out[a] == if a < i then cs[a] else if a == i then c else cs[a - 1];
      assert out[b] == if b < i then cs[b] else if b == i then c else cs[b - 1];
    }
  }

  lemma ArrangesUnique(a: seq<Component>, b: seq<Component>, m: Items)
    requires Arranges(a, m) && Arranges(b, m)
    ensures a == b
  {
    InOrderUnique(a, b);
  }

  // ---- the payload --------------------------------------------------------------------------

  function Trimmed(c: Component): Component { c.(name := GoTrim(c.name)) }

  predicate Usable(c: Component) {
    GoTrim(c.name) != "" && GoTrim(c.apiVersion) != "" && GoTrim(c.kind) != ""
  }

  /** The components keyed by trimmed name; `None` for an unusable or repeated one. */
  function Collect(cs: seq<Component>): Option<Items> {
    if cs == [] then Some(map[])
    else
      var n := |cs| - 1;
      var m, c := Collect(cs[..n]), Trimmed(cs[n]);
      if m.None? || !Usable(cs[n]) || c.name in m.value then None else Some(m.value[c.name := c])
  }

  /** What `CanonicalReleasePayload` returns for these components. */
  ghost predicate IsPayload(w: Codec, cs: seq<Component>, raw: string, m: Items) {
    Collect(cs) == Some(m) && m != map[] && exists out :: Arranges(out, m) && raw == w.encode(out)
  }

  method CanonicalReleasePayload(w: Codec, cs: seq<Component>) returns (r: Option<(string, Items)>)
    ensures r.Some? ==> IsPayload(w, cs, r.value.0, r.value.1)
    ensures r.None? <==> Collect(cs).None? || cs == []
    ensures r.Some? <==> cs != [] && Proper(cs)
  {
    CollectIff(cs);
    SoundIs(cs);
    var m: Items := map[];
    for n := 0 to |cs|
      invariant Collect(cs[..n]) == Some(m) && Keyed(m) && (n > 0 ==> m != map[])
    {
      assert cs[..n + 1][..n] == cs[..n] && cs[..n + 1][n] == cs[n];
      var c := Trimmed(cs[n]);
      if !Usable(cs[n]) || c.name in m { CollectFails(cs, n + 1); return None; }
      m := m[c.name := c];
      assert c.name in m;
    }
    assert cs[..|cs|] == cs;
    if m == map[] { return None; }
    var out := Sorted(m);
    return Some((w.encode(out), m));
  }

  lemma {:induction false} CollectFails(cs: seq<Component>, n: nat)
    requires n <= |cs| && Collect(cs[..n]).None?
    ensures Collect(cs).None?
    decreases |cs|
  {
    if n == |cs| {
      assert cs[..n] == cs;
    } else {
      assert cs[..|cs| - 1][..n] == cs[..n];
      CollectFails(cs[..|cs| - 1], n);
    }
  }

  function TrimmedName(c: Component): string { GoTrim(c.name) }

  predicate NamesDistinct(cs: seq<Component>) {
    KeysDistinct(cs, TrimmedName)
  }

  /** What is collected: every component, trimmed, under its trimmed name. */
  ghost predicate Holds(m: Items, cs: seq<Component>) {
    && (forall i | 0 <= i < |cs| :: GoTrim(cs[i].name) in m && m[GoTrim(cs[i].name)] == Trimmed(cs[i]))
    && (forall k | k in m :: exists i :: 0 <= i < |cs| && GoTrim(cs[i].name) == k)
  }

  predicate Sound(cs: seq<Component>) {
    NamesDistinct(cs) && forall i | 0 <= i < |cs| :: Usable(cs[i])
  }

  lemma SoundSnoc(before: seq<Component>, c: Component)
    ensures Sound(before + [c]) <==>
            Sound(before) && Usable(c) && forall i | 0 <= i < |before| :: GoTrim(before[i].name) != GoTrim(c.name)
  {
    var n, after := |before|, before + [c];
    assert after[n] == c && forall i | 0 <= i < n :: after[i] == before[i];
    if Sound(after) {
      forall i | 0 <= i < n
        ensures GoTrim(before[i].name) != GoTrim(c.name)
      {
        assert GoTrim(after[i].name) != GoTrim(after[n].name);
      }
      forall i, j | 0 <= i < j < n ensures GoTrim(before[i].name) != GoTrim(before[j].name) {
        assert GoTrim(after[i].name) != GoTrim(after[j].name);
      }
      forall i | 0 <= i < n ensures Usable(before[i]) { assert Usable(after[i]); }
    }
  }

  lemma HeldNames(m: Items, before: seq<Component>, name: string)
    requires Holds(m, before)
    ensures name !in m <==> forall i | 0 <= i < |before| :: GoTrim(before[i].name) != name
  {
  }

  lemma CollectOneMore(before: seq<Component>, c: Component)
    requires Collect(before).Some? <==> Sound(before)
    requires Collect(before).Some? ==> Holds(Collect(before).value, before)
    ensures Collect(before + [c]).Some? <==> Sound(before + [c])
    ensures Collect(before + [c]).Some? ==> Holds(Collect(before + [c]).value, before + [c])
  {
    CollectSnoc(before, c);
    SoundSnoc(before, c);
    if Collect(before).Some? {
      var m := Collect(before).value;
      HeldNames(m, before, GoTrim(c.name));
      if GoTrim(c.name) !in m { HoldsOneMore(m, before, c); }
    }
  }

  lemma CollectSnoc(before: seq<Component>, c: Component)
    ensures Collect(before + [c])
            == var m := Collect(before);
               if m.None? || !Usable(c) || GoTrim(c.name) in m.value then None
               else Some(m.value[GoTrim(c.name) := Trimmed(c)])
  {
    var after := before + [c];
    assert after[..|after| - 1] == before && after[|after| - 1] == c;
  }

  /** The components are collected exactly when all are usable and no trimmed name repeats. */
  lemma {:induction false} CollectIff(cs: seq<Component>)
    ensures Collect(cs).Some? <==> Sound(cs)
    ensures Collect(cs).Some? ==> Holds(Collect(cs).value, cs)
  {
    if cs == [] {
    } else {
      var n := |cs| - 1;
      CollectIff(cs[..n]);
      CollectOneMore(cs[..n], cs[n]);
      assert cs == cs[..n] + [cs[n]];
    }
  }

  /** None has a blank name, version or kind, and no two have the same trimmed name. */
  predicate Proper(cs: seq<Component>) {
    && (forall i, j | 0 <= i < j < |cs| :: GoTrim(cs[i].name) != GoTrim(cs[j].name))
    && (forall i | 0 <= i < |cs| ::
          GoTrim(cs[i].name) != "" && GoTrim(cs[i].apiVersion) != "" && GoTrim(cs[i].kind) != "")
  }

  lemma SoundIs(cs: seq<Component>)
    ensures Sound(cs) <==> Proper(cs)
  {
    if Sound(cs) {
      forall i, j | 0 <= i < j < |cs| ensures GoTrim(cs[i].name) != GoTrim(cs[j].name) {
        assert TrimmedName(cs[i]) != TrimmedName(cs[j]);
      }
      forall i | 0 <= i < |cs|
        ensures GoTrim(cs[i].name) != "" && GoTrim(cs[i].apiVersion) != "" && GoTrim(cs[i].kind) != ""
      {
        assert Usable(cs[i]);
      }
    }
  }

  lemma HoldsOneMore(m: Items, before: seq<Component>, c: Component)
    requires Holds(m, before) && GoTrim(c.name) !in m
    ensures Holds(m[GoTrim(c.name) := Trimmed(c)], before + [c])
  {
    var m', after := m[GoTrim(c.name) := Trimmed(c)], before + [c];
    forall k | k in m' ensures exists i :: 0 <= i < |after| && GoTrim(after[i].name) == k {
      if k == GoTrim(c.name) {
        assert after[|before|] == c;
      } else {
        var i :| 0 <= i < |before| && GoTrim(before[i].name) == k;
        assert after[i] == before[i];
      }
    }
  }

  // ---- permutations -------------------------------------------------------------------------

  lemma {:induction false} TwiceThere(cs: seq<Component>, c: Component)
    ensures multiset(cs)[c] >= 2 <==> exists i, j :: 0 <= i < j < |cs| && cs[i] == c && cs[j] == c
  {
    if cs == [] {
    } else {
      var n := |cs| - 1;
      TwiceThere(cs[..n], c);
      assert cs == cs[..n] + [cs[n]];
      if cs[n] == c && c in multiset(cs[..n]) {
        assert c in cs[..n];
        var i :| 0 <= i < n && cs[..n][i] == c;
        assert cs[i] == c && cs[n] == c;
      }
      if i, j :| 0 <= i < j < |cs| && cs[i] == c && cs[j] == c {
        assert cs[..n][i] == c;
        assert c in multiset(cs[..n]);
        assert j < n ==> cs[..n][j] == c;
      }
      if i, j :| 0 <= i < j < n && cs[..n][i] == c && cs[..n][j] == c { assert cs[i] == c && cs[j] == c; }
    }
  }

  lemma PermutedDistinct(xs: seq<Component>, ys: seq<Component>)
    requires multiset(xs) == multiset(ys) && NamesDistinct(xs)
    ensures NamesDistinct(ys)
  {
    forall i, j | 0 <= i < j < |ys| ensures GoTrim(ys[i].name) != GoTrim(ys[j].name) {
      TwiceThere(ys, ys[i]);
      TwiceThere(xs, ys[i]);
      assert ys[i] in multiset(ys) && ys[j] in multiset(ys);
      assert ys[i] in xs && ys[j] in xs;
      var p :| 0 <= p < |xs| && xs[p] == ys[i];
      var q :| 0 <= q < |xs| && xs[q] == ys[j];
      assert p != q;
    }
  }

  lemma HeldIn(m: Items, m': Items, xs: seq<Component>, ys: seq<Component>, k: string)
    requires Holds(m, xs) && Holds(m', ys) && (forall c | c in xs :: c in ys) && k in m
    ensures k in m' && m'[k] == m[k]
  {
    var i :| 0 <= i < |xs| && GoTrim(xs[i].name) == k;
    assert xs[i] in ys;
    var j :| 0 <= j < |ys| && ys[j] == xs[i];
    assert m'[GoTrim(ys[j].name)] == Trimmed(ys[j]);
  }

  lemma SameHeld(m: Items, m': Items, xs: seq<Component>, ys: seq<Component>)
    requires Holds(m, xs) && Holds(m', ys) && multiset(xs) == multiset(ys)
    ensures m == m'
  {
    forall c ensures c in xs <==> c in ys { assert c in multiset(xs) <==> c in multiset(ys); }
    forall k | k in m ensures k in m' && m'[k] == m[k] { HeldIn(m, m', xs, ys, k); }
    forall k | k in m' ensures k in m { HeldIn(m', m, ys, xs, k); }
  }

  /** Every permutation of the components is collected alike. */
  lemma CollectPermuted(xs: seq<Component>, ys: seq<Component>)
    requires multiset(xs) == multiset(ys) && Collect(xs).Some?
    ensures Collect(ys) == Collect(xs)
  {
    CollectIff(xs);
    CollectIff(ys);
    PermutedDistinct(xs, ys);
    forall i | 0 <= i < |ys| ensures Usable(ys[i]) {
      assert ys[i] in multiset(ys);
      assert ys[i] in xs;
    }
    SameHeld(Collect(xs).value, Collect(ys).value, xs, ys);
  }

  /** One payload for all permutations, however the map is iterated and the sort breaks its ties. */
  lemma PayloadForgetsOrder(w: Codec, xs: seq<Component>, ys: seq<Component>, raw: string, raw': string, m: Items,
                            m': Items)
    requires multiset(xs) == multiset(ys) && IsPayload(w, xs, raw, m) && IsPayload(w, ys, raw', m')
    ensures raw == raw' && m == m'
  {
    CollectPermuted(xs, ys);
    var a :| Arranges(a, m) && raw == w.encode(a);
    var b :| Arranges(b, m') && raw' == w.encode(b);
    ArrangesUnique(a, b, m);
  }

  // ---- parsing ------------------------------------------------------------------------------

  method ParseReleasePayload(w: Codec, raw: string) returns (r: Option<Items>)
    ensures r == Parsed(w, raw)
  {
    var cs := w.decode(raw);
    if cs.None? { return None; }
    var payload := CanonicalReleasePayload(w, cs.value);
    if payload.None? { NoPayload(w, cs.value); return None; }
    PayloadIs(w, cs.value, payload.value.0, payload.value.1);
    if payload.value.0 != raw { return None; }
    return Some(payload.value.1);
  }

  /** `ParseReleasePayload`: the payload decodes, and encodes back to itself. */
  ghost function Parsed(w: Codec, raw: string): Option<Items> {
    var cs := w.decode(raw);
    if cs.Some? && exists m :: IsPayload(w, cs.value, raw, m) then Collect(cs.value) else None
  }

  lemma NoPayload(w: Codec, cs: seq<Component>)
    requires Collect(cs).None? || cs == []
    ensures forall raw, m :: !IsPayload(w, cs, raw, m)
  {
  }

  lemma PayloadIs(w: Codec, cs: seq<Component>, raw: string, m: Items)
    requires IsPayload(w, cs, raw, m)
    ensures forall raw', m' :: IsPayload(w, cs, raw', m') ==> raw' == raw && m' == m
  {
    forall raw', m' | IsPayload(w, cs, raw', m') ensures raw' == raw && m' == m {
      PayloadForgetsOrder(w, cs, cs, raw, raw', m, m');
    }
  }

  /** Keyed by trimmed names, and all usable: what any collected map is. */
  predicate Tidy(m: Items) {
    forall k | k in m :: m[k].name == k && GoTrim(k) == k && Usable(m[k])
  }

  lemma ArrangedSound(out: seq<Component>, m: Items)
    requires Arranges(out, m) && Tidy(m)
    ensures Sound(out) && forall i | 0 <= i < |out| :: GoTrim(out[i].name) == out[i].name && Trimmed(out[i]) == out[i]
  {
    forall i | 0 <= i < |out| ensures out[i].name in m && m[out[i].name] == out[i] { assert out[i] in out; }
    forall i, j | 0 <= i < j < |out| ensures out[i].name != out[j].name {
      assert Precedes(out[i], out[j]);
      PrecedesIrreflexive(out[i]);
    }
  }

  lemma HeldArranged(n: Items, out: seq<Component>, m: Items)
    requires Arranges(out, m) && Tidy(m) && Holds(n, out)
    requires forall i | 0 <= i < |out| :: GoTrim(out[i].name) == out[i].name && Trimmed(out[i]) == out[i]
    ensures n == m
  {
    forall k | k in n ensures k in m && n[k] == m[k] {
      var i :| 0 <= i < |out| && GoTrim(out[i].name) == k;
      assert out[i] in out;
    }
    forall k | k in m ensures k in n {
      assert m[k] in out;
      var i :| 0 <= i < |out| && out[i] == m[k];
    }
  }

  /** An arrangement of a collected map collects back to that map. */
  lemma CollectArranged(out: seq<Component>, m: Items)
    requires Arranges(out, m) && Tidy(m)
    ensures Collect(out) == Some(m)
  {
    ArrangedSound(out, m);
    CollectIff(out);
    HeldArranged(Collect(out).value, out, m);
  }

  lemma HeldUsable(m: Items, cs: seq<Component>)
    requires Collect(cs) == Some(m)
    ensures Tidy(m)
  {
    CollectIff(cs);
    forall k | k in m ensures m[k].name == k && GoTrim(k) == k && Usable(m[k]) {
      var i :| 0 <= i < |cs| && GoTrim(cs[i].name) == k;
      assert Usable(cs[i]);
      TrimShape(cs[i].name, IsGoSpace);
      TrimTight(k, IsGoSpace);
    }
  }

  /** Parsing accepts exactly the canonical payloads, and gives back the components each was made of. */
  lemma ParsesIff(w: Codec, raw: string, m: Items)
    requires RoundTrips(w)
    ensures Parsed(w, raw) == Some(m) <==> exists cs :: IsPayload(w, cs, raw, m)
  {
    if Parsed(w, raw) == Some(m) { assert IsPayload(w, w.decode(raw).value, raw, m); }
    if cs :| IsPayload(w, cs, raw, m) {
      var out :| Arranges(out, m) && raw == w.encode(out);
      HeldUsable(m, cs);
      CollectArranged(out, m);
      assert w.decode(raw) == Some(out);
      assert IsPayload(w, out, raw, m);
    }
  }

  /** `Digest` of a catalog: the hash of its arrangement. */
  ghost predicate IsDigest(w: Codec, m: Items, digest: string) {
    exists out :: Arranges(out, m) && digest == w.hash(w.encode(out))
  }

  /** The digest of the parsed catalog is the hash of the payload, and it is the only one. */
  lemma DigestOfParsed(w: Codec, raw: string, m: Items, digest: string)
    requires Parsed(w, raw) == Some(m)
    ensures IsDigest(w, m, digest) <==> digest == w.hash(raw)
  {
    var n :| IsPayload(w, w.decode(raw).value, raw, n);
    var out :| Arranges(out, m) && raw == w.encode(out);
    if IsDigest(w, m, digest) {
      var other :| Arranges(other, m) && digest == w.hash(w.encode(other));
      ArrangesUnique(out, other, m);
    }
  }
}

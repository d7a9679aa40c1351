/** What the parts of a split guarantee: they sort by file name, and no other bytes, order or choice of them
    reassembles. */
module MultipartLaws {
  import opened Collections
  import opened Text
  import opened NameOrder
  import opened Multipart

  // ---- the file names -----------------------------------------------------------------------

  predicate AllDigits(s: string) { forall i | 0 <= i < |s| :: '0' <= s[i] <= '9' }

  lemma {:induction false} NumberInjective(a: string, b: string)
    requires AllDigits(a) && AllDigits(b) && |a| == |b|
    ensures Number(a) == Number(b) ==> a == b
  {
    if a == "" {
    } else {
      var n := |a| - 1;
      NumberInjective(a[..n], b[..n]);
      assert a == a[..n] + [a[n]] && b == b[..n] + [b[n]];
    }
  }

  lemma BelowExtends(a: string, b: string, s: string, t: string)
    requires |a| == |b| && Below(a, b)
    ensures Below(a + s, b + t)
  {
    BelowIff(a, b);
    var k :| 0 <= k <= |a| && k < |b| && a[..k] == b[..k] && (k == |a| || a[k] < b[k]);
    assert (a + s)[..k] == a[..k] && (b + t)[..k] == b[..k];
    BelowIff(a + s, b + t);
  }

  lemma BelowPrefixed(p: string, a: string, b: string)
    requires Below(a, b)
    ensures Below(p + a, p + b)
  {
    BelowIff(a, b);
    var k :| 0 <= k <= |a| && k < |b| && a[..k] == b[..k] && (k == |a| || a[k] < b[k]);
    assert (p + a)[..|p| + k] == p + a[..k] && (p + b)[..|p| + k] == p + b[..k];
    BelowIff(p + a, p + b);
  }

  /** Digit strings of one length are ordered as the numbers they write. */
  lemma {:induction false} SmallerIsBelow(a: string, b: string)
    requires AllDigits(a) && AllDigits(b) && |a| == |b| && Number(a) < Number(b)
    ensures Below(a, b)
  {
    if a == "" {
    } else {
      var n := |a| - 1;
      assert a == a[..n] + [a[n]] && b == b[..n] + [b[n]];
      if Number(a[..n]) < Number(b[..n]) {
        SmallerIsBelow(a[..n], b[..n]);
        BelowExtends(a[..n], b[..n], [a[n]], [b[n]]);
      } else {
        NumberInjective(a[..n], b[..n]);
        assert Below([a[n]], [b[n]]);
        BelowPrefixed(a[..n], [a[n]], [b[n]]);
      }
    }
  }

  lemma DecimalLength(n: nat)
    requires n < 10000
    ensures 1 <= |Decimal(n)| <= 4
  {
    if n >= 10 { assert |Decimal(n)| == 1 + |Decimal(n / 10)|; }
    if n >= 100 { assert |Decimal(n / 10)| == 1 + |Decimal(n / 100)|; }
    if n >= 1000 { assert |Decimal(n / 100)| == 1 + |Decimal(n / 1000)|; }
  }

  lemma PaddedIs(n: nat)
    requires n < 10000
    ensures |Padded(n)| == 4 && AllDigits(Padded(n)) && Number(Padded(n)) == n
  {
    DecimalLength(n);
    DecimalChars(n);
    NumberOfPadded(n);
    var d := Decimal(n);
    assert forall i | 0 <= i < |d| :: d[i] in d;
  }

  /** Up to ten thousand parts, the file names sort in the order of the parts. */
  lemma PartNamesSorted(name: string, i: nat, d: string, j: nat, e: string)
    requires i < j < 10000
    ensures Below(PartName(name, i, d), PartName(name, j, e))
  {
    var p := name + ".part";
    PaddedIs(i);
    PaddedIs(j);
    SmallerIsBelow(Padded(i), Padded(j));
    BelowExtends(Padded(i), Padded(j), ".sha256-" + d, ".sha256-" + e);
    BelowPrefixed(p, Padded(i) + (".sha256-" + d), Padded(j) + (".sha256-" + e));
    assert PartName(name, i, d) == p + (Padded(i) + (".sha256-" + d));
    assert PartName(name, j, e) == p + (Padded(j) + (".sha256-" + e));
  }

  // ---- nothing else reassembles -------------------------------------------------------------

  /** Rows taken from a split, in any order, repeated or left out, that pass the checks on the parts are its
      first rows in their order. */
  lemma OnlyInOrder(hash: Bytes -> string, dir: map<string, Bytes>, make: (Bytes, nat) -> Part, parts: seq<Part>,
                    chunks: seq<Bytes>, rows: seq<Part>)
    requires Describes(make, parts, chunks) && (forall c, i: nat :: make(c, i).index == i)
    requires (forall r | r in rows :: r in parts) && PartsFine(hash, dir, rows)
    ensures rows <= parts
  {
    forall i | 0 <= i < |rows| ensures i < |parts| && rows[i] == parts[i] {
      assert rows[i] in rows && PartFine(hash, dir, rows[i], i);
      var j :| 0 <= j < |parts| && parts[j] == rows[i];
      assert parts[j] == make(chunks[j], j);
    }
    var n := |rows|;
    assert n > 0 ==> rows[n - 1] == rows[n - 1] && n - 1 < |parts|;
  }

  /** No two of these byte strings collide. */
  ghost predicate Tells(hash: Bytes -> string, a: seq<Bytes>, b: map<string, Bytes>) {
    forall x, f | x in a && f in b && hash(x) == hash(b[f]) :: x == b[f]
  }

  /** In whatever directory the rows of a split pass the checks on the parts, without a collision of digests,
      every part holds the bytes it was split into and the object reassembled is the one that was split. */
  lemma OnlyTheOriginal(hash: Bytes -> string, content: Bytes, max: nat, name: string, parts: seq<Part>,
                        dir: map<string, Bytes>)
    requires max > 0 && Describes(Maker(hash, name), parts, Chunks(content, max))
    requires PartsFine(hash, dir, parts) && Tells(hash, Chunks(content, max), dir)
    ensures Stored(parts, Chunks(content, max), dir) && Joined(dir, parts) == content
  {
    var chunks := Chunks(content, max);
    forall i | 0 <= i < |parts| ensures parts[i].file in dir && dir[parts[i].file] == chunks[i] {
      assert PartFine(hash, dir, parts[i], i);
      assert parts[i] == PartOf(hash, chunks[i], i, name) && chunks[i] in chunks;
    }
    JoinedIsConcat(dir, parts, chunks);
    ChunksAre(content, max);
  }
}

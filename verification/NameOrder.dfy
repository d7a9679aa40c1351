/** Sorting records by a name, in code point order. */
module NameOrder {
  import opened Collections

  predicate Below(a: string, b: string) {
    b != "" && (a == "" || a[0] < b[0] || (a[0] == b[0] && Below(a[1..], b[1..])))
  }

  /** Code point order: at the first place where the names part, the lower has the smaller character or
      has ended. */
  lemma {:induction false} BelowIff(a: string, b: string)
    ensures Below(a, b)
            <==> exists k | 0 <= k <= |a| && k < |b| :: a[..k] == b[..k] && (k == |a| || a[k] < b[k])
  {
    if a == "" {
      if b != "" { assert a[..0] == b[..0]; }
    } else if b != "" {
      BelowIff(a[1..], b[1..]);
      if Below(a, b) && a[0] == b[0] {
        var k :| 0 <= k <= |a[1..]| && k < |b[1..]| && a[1..][..k] == b[1..][..k]
                 && (k == |a[1..]| || a[1..][k] < b[1..][k]);
        assert a[..k + 1] == [a[0]] + a[1..][..k] && b[..k + 1] == [b[0]] + b[1..][..k];
      } else if Below(a, b) {
        assert a[..0] == b[..0];
      }
      if k :| 0 <= k <= |a| && k < |b| && a[..k] == b[..k] && (k == |a| || a[k] < b[k]) {
        if k > 0 {
          assert a[0] == a[..k][0] && b[0] == b[..k][0];
          assert a[1..][..k - 1] == a[..k][1..] && b[1..][..k - 1] == b[..k][1..];
        }
      }
    }
  }

  lemma {:induction false} BelowIrreflexive(a: string)
    ensures !Below(a, a)
  {
    if a == "" {
    } else {
      BelowIrreflexive(a[1..]);
    }
  }

  lemma {:induction false} BelowTransitive(a: string, b: string, c: string)
    requires Below(a, b) && Below(b, c)
    ensures Below(a, c)
  {
    if a != "" && a[0] == b[0] && b[0] == c[0] { BelowTransitive(a[1..], b[1..], c[1..]); }
  }

  lemma {:induction false} BelowTotal(a: string, b: string)
    ensures a == b || Below(a, b) || Below(b, a)
  {
    if a != "" && b != "" && a[0] == b[0] {
      BelowTotal(a[1..], b[1..]);
      assert a == [a[0]] + a[1..] && b == [b[0]] + b[1..];
    }
  }

  predicate Increasing<T>(xs: seq<T>, key: T -> string) {
    forall i, j | 0 <= i < j < |xs| :: Below(key(xs[i]), key(xs[j]))
  }

  function Insert<T>(xs: seq<T>, x: T, key: T -> string): seq<T> {
    if xs == [] || Below(key(x), key(xs[0])) then [x] + xs else [xs[0]] + Insert(xs[1..], x, key)
  }

  function Sort<T>(xs: seq<T>, key: T -> string): seq<T> {
    if xs == [] then [] else Insert(Sort(xs[..|xs| - 1], key), xs[|xs| - 1], key)
  }

  lemma {:induction false} InsertMember<T>(xs: seq<T>, x: T, key: T -> string, y: T)
    ensures |Insert(xs, x, key)| == |xs| + 1
    ensures y in Insert(xs, x, key) <==> y == x || y in xs
  {
    if xs == [] {
    } else {
      InsertMember(xs[1..], x, key, y);
      assert xs == [xs[0]] + xs[1..];
    }
  }

  lemma {:induction false} InsertIncreasing<T>(xs: seq<T>, x: T, key: T -> string)
    requires Increasing(xs, key) && forall y | y in xs :: key(y) != key(x)
    ensures Increasing(Insert(xs, x, key), key)
  {
    if xs == [] {
    } else if Below(key(x), key(xs[0])) {
      forall i | 0 < i < |xs| ensures Below(key(x), key(xs[i])) { BelowTransitive(key(x), key(xs[0]), key(xs[i])); }
    } else {
      assert xs[0] in xs;
      BelowTotal(key(x), key(xs[0]));
      var rest := Insert(xs[1..], x, key);
      InsertIncreasing(xs[1..], x, key);
      forall i | 0 <= i < |rest| ensures Below(key(xs[0]), key(rest[i])) {
        InsertMember(xs[1..], x, key, rest[i]);
        assert rest[i] in rest;
        if rest[i] in xs[1..] {
          var k :| 0 <= k < |xs[1..]| && xs[1..][k] == rest[i];
          assert Below(key(xs[0]), key(xs[k + 1]));
        }
      }
    }
  }

  lemma {:induction false} SortMember<T>(xs: seq<T>, key: T -> string, y: T)
    ensures |Sort(xs, key)| == |xs|
    ensures y in Sort(xs, key) <==> y in xs
  {
    if xs == [] {
    } else {
      var n := |xs| - 1;
      SortMember(xs[..n], key, y);
      InsertMember(Sort(xs[..n], key), xs[n], key, y);
      assert xs == xs[..n] + [xs[n]];
    }
  }

  lemma {:induction false} SortIncreasing<T>(xs: seq<T>, key: T -> string)
    requires KeysDistinct(xs, key)
    ensures Increasing(Sort(xs, key), key)
  {
    if xs == [] {
    } else {
      var n := |xs| - 1;
      SortIncreasing(xs[..n], key);
      forall y | y in Sort(xs[..n], key) ensures key(y) != key(xs[n]) {
        SortMember(xs[..n], key, y);
        var i :| 0 <= i < n && xs[..n][i] == y;
        assert xs[i] == y;
      }
      InsertIncreasing(Sort(xs[..n], key), xs[n], key);
    }
  }

  lemma {:induction false} IncreasingDistinct<T>(xs: seq<T>, key: T -> string)
    requires Increasing(xs, key)
    ensures KeysDistinct(xs, key)
  {
    forall i, j | 0 <= i < j < |xs| ensures key(xs[i]) != key(xs[j]) { BelowIrreflexive(key(xs[i])); }
  }

  /** An increasing list is determined by its members. */
  lemma {:induction false} IncreasingUnique<T>(xs: seq<T>, ys: seq<T>, key: T -> string)
    requires Increasing(xs, key) && Increasing(ys, key) && forall z :: z in xs <==> z in ys
    ensures xs == ys
  {
    assert |ys| > 0 ==> ys[0] in ys;
    if xs == [] {
    } else {
      assert xs[0] in xs && xs[0] in ys;
      FirstIsLeast(xs, ys, key);
      FirstIsLeast(ys, xs, key);
      if xs[0] != ys[0] { BelowTransitive(key(xs[0]), key(ys[0]), key(xs[0])); BelowIrreflexive(key(xs[0])); }
      RestMembers(xs, ys, key);
      IncreasingUnique(xs[1..], ys[1..], key);
      assert xs == [xs[0]] + xs[1..] && ys == [ys[0]] + ys[1..];
    }
  }

  lemma FirstIsLeast<T>(xs: seq<T>, ys: seq<T>, key: T -> string)
    requires Increasing(xs, key) && xs != [] && ys != [] && ys[0] in xs
    ensures xs[0] == ys[0] || Below(key(xs[0]), key(ys[0]))
  {
    var i :| 0 <= i < |xs| && xs[i] == ys[0];
  }

  lemma RestMembers<T>(xs: seq<T>, ys: seq<T>, key: T -> string)
    requires Increasing(xs, key) && Increasing(ys, key) && (forall z :: z in xs <==> z in ys)
    requires xs != [] && ys != [] && xs[0] == ys[0]
    ensures forall z :: z in xs[1..] <==> z in ys[1..]
  {
    IncreasingDistinct(xs, key);
    IncreasingDistinct(ys, key);
    forall z ensures z in xs[1..] <==> z in ys[1..] {
      if z in xs[1..] { InRest(xs, ys, key, z); }
      if z in ys[1..] { InRest(ys, xs, key, z); }
    }
  }

  lemma InRest<T>(xs: seq<T>, ys: seq<T>, key: T -> string, z: T)
    requires KeysDistinct(xs, key) && (forall y | y in xs :: y in ys) && xs != [] && ys != [] && xs[0] == ys[0]
             && z in xs[1..]
    ensures z in ys[1..]
  {
    var i :| 0 <= i < |xs[1..]| && xs[1..][i] == z;
    assert xs[i + 1] == z && key(xs[0]) != key(xs[i + 1]);
    assert z in xs && z in ys;
    var j :| 0 <= j < |ys| && ys[j] == z;
    assert ys[1..][j - 1] == z;
  }

  /** Sorting forgets the order things came in. */
  lemma SortForgetsOrder<T>(xs: seq<T>, ys: seq<T>, key: T -> string)
    requires KeysDistinct(xs, key) && KeysDistinct(ys, key) && forall z :: z in xs <==> z in ys
    ensures Sort(xs, key) == Sort(ys, key)
  {
    SortIncreasing(xs, key);
    SortIncreasing(ys, key);
    forall z ensures z in Sort(xs, key) <==> z in Sort(ys, key) { SortMember(xs, key, z); SortMember(ys, key, z); }
    IncreasingUnique(Sort(xs, key), Sort(ys, key), key);
  }
}

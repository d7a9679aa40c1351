/** What several models share: optional values, and sequences told apart by themselves or by a key. */
module Collections {
  datatype Option<T> = None | Some(value: T)

  predicate Distinct<T(==)>(xs: seq<T>) {
    forall i, j | 0 <= i < j < |xs| :: xs[i] != xs[j]
  }

  lemma DistinctTail<T>(xs: seq<T>)
    requires Distinct(xs) && xs != []
    ensures Distinct(xs[1..]) && xs[0] !in xs[1..]
  {
    var rest := xs[1..];
    assert forall i | 0 <= i < |rest| :: rest[i] == xs[i + 1];
  }

  predicate KeysDistinct<T>(xs: seq<T>, key: T -> string) {
    forall i, j | 0 <= i < j < |xs| :: key(xs[i]) != key(xs[j])
  }

  /** The keys some elements use. */
  function Keys<T(==)>(xs: seq<T>, key: T -> string): set<string> {
    set x | x in xs :: key(x)
  }

  lemma KeysSnoc<T>(xs: seq<T>, x: T, key: T -> string)
    ensures Keys(xs + [x], key) == Keys(xs, key) + {key(x)}
  {
    assert x in xs + [x];
  }

  lemma KeysDistinctSnoc<T>(xs: seq<T>, x: T, key: T -> string)
    requires KeysDistinct(xs, key)
    ensures KeysDistinct(xs + [x], key) <==> key(x) !in Keys(xs, key)
  {
    var n, more := |xs|, xs + [x];
    assert more[n] == x;
    if key(x) in Keys(xs, key) {
      var y :| y in xs && key(y) == key(x);
      var i :| 0 <= i < n && xs[i] == y;
      assert key(more[i]) == key(more[n]);
    } else {
      forall i | 0 <= i < n ensures key(more[i]) != key(x) { assert xs[i] in xs; }
    }
  }
}

/** Admission over any scheme of checks that agree with each other: every run keeps the rows valid, and
    the order of attempts is immaterial. */
module AdmissionOrders {
  import opened Collections
  import opened Admission
  import opened AdmissionRows

  /** What a scheme must promise: verified rows are good rows of the client named, and on rows of
      different clients the reuse test finds exactly the pairs that are not apart. */
  ghost predicate Laws(s: Scheme) {
    && Distinct(s.clients)
    && (forall a :: s.verified(a).Some? ==>
          s.verified(a).value.client == a.client && a.client in s.clients && s.ok(s.verified(a).value))
    && (forall x, y :: s.apart(x, y) == s.apart(y, x))
    && (forall x, y :: s.reuses(x, y) == s.reuses(y, x))
  }

  /** Among these attempts, for different clients, rows are apart exactly when nothing is reused. */
  ghost predicate Exact(s: Scheme, attempts: seq<Attempt>) {
    forall a, b
      | a in attempts && b in attempts && a.client != b.client && s.verified(a).Some? && s.verified(b).Some? ::
      s.apart(s.verified(a).value, s.verified(b).value) == !s.reuses(s.verified(a).value, s.verified(b).value)
  }

  lemma ExactFewer(s: Scheme, fewer: seq<Attempt>, attempts: seq<Attempt>)
    requires Exact(s, attempts) && forall a | a in fewer :: a in attempts
    ensures Exact(s, fewer)
  {
  }

  ghost predicate RowsValid(s: Scheme, rows: seq<Row>) {
    Ordered(s.clients, rows) && EachAndLater(rows, s.ok, s.apart)
  }

  lemma ValidByKey(s: Scheme, rows: seq<Row>)
    requires Laws(s) && RowsValid(s, rows)
    ensures Keyed(s.clients, ById(rows)) && Canon(s.clients, ById(rows)) == rows
            && EachAndPairs(ById(rows), s.ok, s.apart)
  {
    ByIdOf(s.clients, rows);
    PairsByKey(s.clients, ById(rows), s.ok, s.apart);
  }

  lemma ApartFromAll(m: map<string, Row>, client: string, row: Row, ok: Row -> bool, apart: (Row, Row) -> bool)
    requires client !in m && EachAndPairs(m, ok, apart) && ok(row) && forall x, y :: apart(x, y) == apart(y, x)
    ensures EachAndPairs(m[client := row], ok, apart) <==> forall k | k in m :: apart(m[k], row)
  {
    var m' := m[client := row];
    if EachAndPairs(m', ok, apart) {
      forall k | k in m ensures apart(m[k], row) { assert apart(m'[k], m'[client]); }
    }
    if forall k | k in m :: apart(m[k], row) {
      forall k, l | k in m' && l in m' && k != l ensures apart(m'[k], m'[l]) {
        assert k in m && l in m ==> apart(m[k], m[l]);
        assert k in m && l == client ==> apart(m[k], row);
        assert l in m && k == client ==> apart(m[l], row);
      }
    }
  }

  /** Validity of a canonical list, on the rows by client. */
  lemma CanonValidIff(s: Scheme, m: map<string, Row>)
    requires Laws(s) && Keyed(s.clients, m)
    ensures RowsValid(s, Canon(s.clients, m)) <==> EachAndPairs(m, s.ok, s.apart)
    ensures ById(Canon(s.clients, m)) == m
  {
    ByIdOfCanon(s.clients, m);
    PairsByKey(s.clients, m, s.ok, s.apart);
  }

  lemma AddShape(s: Scheme, rows: seq<Row>, a: Attempt)
    requires Laws(s) && Add(s, rows, a).Some?
    ensures s.verified(a).Some? && s.verified(a).value.client == a.client && a.client in s.clients
            && s.ok(s.verified(a).value)
    ensures Add(s, rows, a).value == Canon(s.clients, ById(rows)[a.client := s.verified(a).value])
    ensures a.client in ById(rows) ==> ById(rows)[a.client] == s.verified(a).value
  {
  }

  /** What is admitted for a new client reuses nothing. */
  lemma AddUnreused(s: Scheme, rows: seq<Row>, a: Attempt)
    requires Add(s, rows, a).Some? && a.client !in ById(rows)
    ensures s.verified(a).Some? && forall k | k in ById(rows) :: !s.reuses(ById(rows)[k], s.verified(a).value)
  {
  }

  lemma AddReplay(s: Scheme, rows: seq<Row>, a: Attempt)
    requires Laws(s) && RowsValid(s, rows) && Add(s, rows, a).Some? && a.client in ById(rows)
    ensures Add(s, rows, a).value == rows && ById(rows)[a.client := s.verified(a).value] == ById(rows)
  {
    AddShape(s, rows, a);
    ByIdOf(s.clients, rows);
    SameUpdate(ById(rows), a.client);
  }

  lemma SameUpdate(m: map<string, Row>, k: string)
    requires k in m
    ensures m[k := m[k]] == m
  {
  }

  lemma AddNew(s: Scheme, rows: seq<Row>, a: Attempt)
    requires Laws(s) && RowsValid(s, rows) && Add(s, rows, a).Some? && a.client !in ById(rows)
    ensures var m, row := ById(rows), s.verified(a).value;
            && (RowsValid(s, Add(s, rows, a).value) <==> forall k | k in m :: s.apart(m[k], row))
            && ById(Add(s, rows, a).value) == m[a.client := row]
  {
    var m, row := ById(rows), s.verified(a).value;
    AddShape(s, rows, a);
    ValidByKey(s, rows);
    CanonValidIff(s, m[a.client := row]);
    ApartFromAll(m, a.client, row, s.ok, s.apart);
  }

  /** An admitted attempt keeps the rows valid exactly when it is a replay or the row is apart from
      every other. */
  lemma AddValidIff(s: Scheme, rows: seq<Row>, a: Attempt)
    requires Laws(s) && RowsValid(s, rows) && Add(s, rows, a).Some?
    ensures var m, row := ById(rows), s.verified(a).value;
            && (RowsValid(s, Add(s, rows, a).value) <==> a.client in m || forall k | k in m :: s.apart(m[k], row))
            && ById(Add(s, rows, a).value) == m[a.client := row]
            && (a.client in m ==> Add(s, rows, a).value == rows)
  {
    if a.client in ById(rows) { AddReplay(s, rows, a); } else { AddNew(s, rows, a); }
  }

  lemma AddFirst(s: Scheme, a: Attempt)
    requires Laws(s) && Add(s, [], a).Some?
    ensures Add(s, [], a) == Some([s.verified(a).value])
  {
    var row := s.verified(a).value;
    CanonIs(s.clients, map[a.client := row], [row]);
    assert ById([])[a.client := row] == map[a.client := row];
  }

  /** The rows after an admitted attempt are not empty, and each is good. */
  lemma AddRowsGood(s: Scheme, rows: seq<Row>, a: Attempt)
    requires Laws(s) && RowsValid(s, rows) && Add(s, rows, a).Some?
    ensures Add(s, rows, a).value != [] && forall i | 0 <= i < |Add(s, rows, a).value| :: s.ok(Add(s, rows, a).value[i])
  {
    var m, row, out := ById(rows), s.verified(a).value, Add(s, rows, a).value;
    AddShape(s, rows, a);
    ValidByKey(s, rows);
    var m' := m[a.client := row];
    assert EachAndPairs(m', s.ok, (x, y) => true);
    PairsToList(s.clients, m', s.ok, (x, y) => true);
    var i := Standing(s.clients, m', a.client);
  }

  lemma AddSecond(s: Scheme, row: Row, b: Attempt)
    requires s.verified(b).Some? && b.client != row.client && !s.reuses(row, s.verified(b).value)
    ensures Add(s, [row], b).Some?
  {
    assert ById([row]) == ById([])[row.client := row];
  }

  // ---- runs ---------------------------------------------------------------------------------

  /** The rows after a run of attempts; a refused one changes nothing. */
  function Rows(s: Scheme, attempts: seq<Attempt>): seq<Row> {
    if attempts == [] then []
    else
      var n := |attempts| - 1;
      var rows := Rows(s, attempts[..n]);
      var out := Add(s, rows, attempts[n]);
      if out.Some? then out.value else rows
  }

  /** Every row listed is the one some attempt verifies to. */
  ghost predicate Genuine(s: Scheme, m: map<string, Row>, attempts: seq<Attempt>) {
    forall k | k in m :: exists a :: a in attempts && a.client == k && s.verified(a) == Some(m[k])
  }

  /** Whether a row may join: the row already held for its client, or no reuse. */
  ghost predicate Compatible(s: Scheme, m: map<string, Row>, row: Row) {
    if row.client in m then m[row.client] == row else forall k | k in m :: !s.reuses(m[k], row)
  }

  lemma AddIff(s: Scheme, rows: seq<Row>, a: Attempt)
    requires Laws(s)
    ensures Add(s, rows, a).Some? <==> s.verified(a).Some? && Compatible(s, ById(rows), s.verified(a).value)
  {
  }

  lemma GenuineMore(s: Scheme, m: map<string, Row>, before: seq<Attempt>, a: Attempt)
    requires Genuine(s, m, before) && s.verified(a).Some?
    ensures Genuine(s, m[a.client := s.verified(a).value], before + [a])
  {
    GenuineStays(s, m, before, a);
    var m', after := m[a.client := s.verified(a).value], before + [a];
    assert a in after;
    forall k | k in m' ensures exists b :: b in after && b.client == k && s.verified(b) == Some(m'[k]) {
      if k == a.client { assert a in after && s.verified(a) == Some(m'[k]); }
    }
  }

  lemma ApartFromGenuine(s: Scheme, m: map<string, Row>, before: seq<Attempt>, a: Attempt)
    requires Exact(s, before + [a]) && Genuine(s, m, before) && s.verified(a).Some? && a.client !in m
    requires forall k | k in m :: !s.reuses(m[k], s.verified(a).value)
    ensures forall k | k in m :: s.apart(m[k], s.verified(a).value)
  {
    var after := before + [a];
    assert a in after;
    forall k | k in m ensures s.apart(m[k], s.verified(a).value) {
      var b :| b in before && b.client == k && s.verified(b) == Some(m[k]);
      assert b in after;
    }
  }

  lemma AddKeeps(s: Scheme, rows: seq<Row>, before: seq<Attempt>, a: Attempt)
    requires Laws(s) && Exact(s, before + [a]) && RowsValid(s, rows) && Genuine(s, ById(rows), before)
             && Add(s, rows, a).Some?
    ensures RowsValid(s, Add(s, rows, a).value) && Genuine(s, ById(Add(s, rows, a).value), before + [a])
  {
    AddValidIff(s, rows, a);
    AddIff(s, rows, a);
    AddShape(s, rows, a);
    if a.client !in ById(rows) { ApartFromGenuine(s, ById(rows), before, a); }
    GenuineMore(s, ById(rows), before, a);
  }

  /** Every run keeps the rows valid. */
  lemma {:induction false} RunKeeps(s: Scheme, attempts: seq<Attempt>)
    requires Laws(s) && Exact(s, attempts)
    ensures RowsValid(s, Rows(s, attempts)) && Genuine(s, ById(Rows(s, attempts)), attempts)
  {
    if attempts == [] {
    } else {
      var n := |attempts| - 1;
      var before, a := attempts[..n], attempts[n];
      ExactFewer(s, before, attempts);
      RunKeeps(s, before);
      assert attempts == before + [a];
      var rows := Rows(s, before);
      if Add(s, rows, a).Some? { AddKeeps(s, rows, before, a); } else { GenuineStays(s, ById(rows), before, a); }
    }
  }

  lemma GenuineStays(s: Scheme, m: map<string, Row>, before: seq<Attempt>, a: Attempt)
    requires Genuine(s, m, before)
    ensures Genuine(s, m, before + [a])
  {
    forall k | k in m ensures exists b :: b in before + [a] && b.client == k && s.verified(b) == Some(m[k]) {
      var b :| b in before && b.client == k && s.verified(b) == Some(m[k]);
      assert b in before + [a];
    }
  }

  // ---- confluence ---------------------------------------------------------------------------

  predicate AllAdmitted(s: Scheme, attempts: seq<Attempt>) {
    attempts == [] ||
    (var n := |attempts| - 1;
     AllAdmitted(s, attempts[..n]) && Add(s, Rows(s, attempts[..n]), attempts[n]).Some?)
  }

  /** Two attempts that can both be admitted: the same row for the same client, or no reuse. */
  predicate Agree(s: Scheme, a: Attempt, b: Attempt) {
    var x, y := s.verified(a), s.verified(b);
    x.Some? && y.Some? && if a.client == b.client then x == y else !s.reuses(x.value, y.value)
  }

  predicate AllAgree(s: Scheme, attempts: seq<Attempt>) {
    forall a, b | a in attempts && b in attempts :: Agree(s, a, b)
  }

  /** The rows are those of the attempts. */
  ghost predicate Collects(s: Scheme, m: map<string, Row>, attempts: seq<Attempt>) {
    && (forall a | a in attempts :: a.client in m && s.verified(a) == Some(m[a.client]))
    && (forall k | k in m :: exists a :: a in attempts && a.client == k)
  }

  lemma CollectsMore(s: Scheme, m: map<string, Row>, before: seq<Attempt>, a: Attempt)
    requires Collects(s, m, before) && s.verified(a).Some? && (a.client in m ==> m[a.client] == s.verified(a).value)
    ensures Collects(s, m[a.client := s.verified(a).value], before + [a])
  {
    var m', after := m[a.client := s.verified(a).value], before + [a];
    forall k | k in m' ensures exists b :: b in after && b.client == k {
      if k == a.client { assert a in after; } else { var b :| b in before && b.client == k; assert b in after; }
    }
  }

  lemma AddCollects(s: Scheme, rows: seq<Row>, before: seq<Attempt>, a: Attempt)
    requires Laws(s) && RowsValid(s, rows) && Collects(s, ById(rows), before) && Add(s, rows, a).Some?
    ensures Collects(s, ById(Add(s, rows, a).value), before + [a])
  {
    AddIff(s, rows, a);
    AddValidIff(s, rows, a);
    CollectsMore(s, ById(rows), before, a);
  }

  lemma LastAttempt(s: Scheme, attempts: seq<Attempt>, before: seq<Attempt>, a: Attempt)
    requires attempts == before + [a] && AllAdmitted(s, attempts)
    ensures AllAdmitted(s, before) && Add(s, Rows(s, before), a) == Some(Rows(s, attempts))
  {
    assert attempts[..|attempts| - 1] == before;
  }

  lemma {:induction false} AllAdmittedCollects(s: Scheme, attempts: seq<Attempt>)
    requires Laws(s) && Exact(s, attempts) && AllAdmitted(s, attempts)
    ensures Collects(s, ById(Rows(s, attempts)), attempts)
  {
    if attempts == [] {
    } else {
      var n := |attempts| - 1;
      var before, a := attempts[..n], attempts[n];
      LastAttempt(s, attempts, before, a);
      ExactFewer(s, before, attempts);
      AllAdmittedCollects(s, before);
      RunKeeps(s, before);
      AddCollects(s, Rows(s, before), before, a);
    }
  }

  predicate Of(a: Attempt, attempts: seq<Attempt>) { a in attempts }

  /** Every attempt of `other` yields what some attempt of `one` for the same client yields. */
  ghost predicate Matched(s: Scheme, one: seq<Attempt>, other: seq<Attempt>) {
    forall b | Of(b, other) :: exists a :: a in one && a.client == b.client && s.verified(a) == s.verified(b)
  }

  lemma ExactMatched(s: Scheme, one: seq<Attempt>, other: seq<Attempt>)
    requires Exact(s, one) && Matched(s, one, other)
    ensures Exact(s, other)
  {
    forall b, d
      | b in other && d in other && b.client != d.client && s.verified(b).Some? && s.verified(d).Some?
      ensures s.apart(s.verified(b).value, s.verified(d).value) == !s.reuses(s.verified(b).value, s.verified(d).value)
    {
      assert Of(b, other) && Of(d, other);
      var a :| a in one && a.client == b.client && s.verified(a) == s.verified(b);
      var e :| e in one && e.client == d.client && s.verified(e) == s.verified(d);
    }
  }

  lemma AgreeMatched(s: Scheme, one: seq<Attempt>, other: seq<Attempt>)
    requires AllAgree(s, one) && Matched(s, one, other)
    ensures AllAgree(s, other)
  {
    forall b, d | b in other && d in other ensures Agree(s, b, d) {
      assert Of(b, other) && Of(d, other);
      var a :| a in one && a.client == b.client && s.verified(a) == s.verified(b);
      var e :| e in one && e.client == d.client && s.verified(e) == s.verified(d);
      assert Agree(s, a, e);
    }
  }

  lemma CollectedToo(s: Scheme, m: map<string, Row>, m': map<string, Row>, one: seq<Attempt>, other: seq<Attempt>,
                     k: string)
    requires Collects(s, m, one) && Collects(s, m', other) && Matched(s, other, one) && k in m
    ensures k in m' && m[k] == m'[k]
  {
    var a :| a in one && a.client == k;
    assert Of(a, one);
    var b :| b in other && b.client == a.client && s.verified(b) == s.verified(a);
    assert s.verified(a) == Some(m[k]) && s.verified(b) == Some(m'[k]);
  }

  lemma SameCollection(s: Scheme, m: map<string, Row>, m': map<string, Row>, one: seq<Attempt>, other: seq<Attempt>)
    requires Collects(s, m, one) && Collects(s, m', other) && Matched(s, one, other) && Matched(s, other, one)
    ensures m == m'
  {
    forall k | k in m ensures k in m' && m[k] == m'[k] { CollectedToo(s, m, m', one, other, k); }
    forall k | k in m' ensures k in m { CollectedToo(s, m', m, other, one, k); }
  }

  lemma CompatibleIff(s: Scheme, m: map<string, Row>, before: seq<Attempt>, a: Attempt)
    requires Laws(s) && Collects(s, m, before) && s.verified(a).Some? && AllAgree(s, before)
    ensures Compatible(s, m, s.verified(a).value) <==> forall b | b in before :: Agree(s, b, a)
  {
    var row := s.verified(a).value;
    if Compatible(s, m, row) {
      forall b | b in before ensures Agree(s, b, a) {
        if a.client in m && b.client != a.client {
          var t :| t in before && t.client == a.client;
          assert Agree(s, b, t);
        }
      }
    }
    if forall b | b in before :: Agree(s, b, a) {
      forall k | k in m ensures if k == row.client then m[k] == row else !s.reuses(m[k], row) {
        var b :| b in before && b.client == k;
        assert Agree(s, b, a);
      }
    }
  }

  lemma AgreeExtended(s: Scheme, before: seq<Attempt>, a: Attempt)
    requires Laws(s) && AllAgree(s, before)
    ensures AllAgree(s, before + [a]) <==> s.verified(a).Some? && forall b | b in before :: Agree(s, b, a)
  {
    var after := before + [a];
    assert a in after;
    if AllAgree(s, after) {
      assert Agree(s, a, a);
      forall b | b in before ensures Agree(s, b, a) { assert b in after; }
    }
    if s.verified(a).Some? && forall b | b in before :: Agree(s, b, a) {
      forall x, y | x in after && y in after ensures Agree(s, x, y) {
        assert x in before && y in before ==> Agree(s, x, y);
        assert y in before && x == a ==> Agree(s, y, a);
      }
    }
  }

  /** A run admits everything exactly when its attempts pairwise agree. */
  lemma {:induction false} AllAdmittedIff(s: Scheme, attempts: seq<Attempt>)
    requires Laws(s) && Exact(s, attempts)
    ensures AllAdmitted(s, attempts) <==> AllAgree(s, attempts)
  {
    if attempts == [] {
    } else {
      var n := |attempts| - 1;
      var before, a := attempts[..n], attempts[n];
      assert attempts == before + [a];
      ExactFewer(s, before, attempts);
      AllAdmittedIff(s, before);
      if AllAdmitted(s, before) {
        AllAdmittedCollects(s, before);
        AddIff(s, Rows(s, before), a);
        AgreeExtended(s, before, a);
        if s.verified(a).Some? { CompatibleIff(s, ById(Rows(s, before)), before, a); }
      } else {
        assert forall x | x in before :: x in attempts;
      }
    }
  }

  /** If one run of attempts is admitted throughout, so is every other that yields the same rows for the
      same clients, in any order and with repetitions, and both end with the same rows. */
  lemma OrderImmaterial(s: Scheme, one: seq<Attempt>, other: seq<Attempt>)
    requires Laws(s) && Exact(s, one) && AllAdmitted(s, one) && Matched(s, one, other) && Matched(s, other, one)
    ensures AllAdmitted(s, other) && Rows(s, other) == Rows(s, one)
  {
    ExactMatched(s, one, other);
    AllAdmittedIff(s, one);
    AgreeMatched(s, one, other);
    AllAdmittedIff(s, other);
    AllAdmittedCollects(s, one);
    AllAdmittedCollects(s, other);
    SameCollection(s, ById(Rows(s, one)), ById(Rows(s, other)), one, other);
    RunKeeps(s, one);
    RunKeeps(s, other);
    ValidByKey(s, Rows(s, one));
    ValidByKey(s, Rows(s, other));
  }
}

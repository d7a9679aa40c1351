/** Rows in canonical client order and rows keyed by client are the same thing. */
module AdmissionRows {
  import opened Collections
  import opened Admission

  predicate Keyed(clients: seq<string>, m: map<string, Row>) {
    forall k | k in m :: k in clients && m[k].client == k
  }

  lemma PosTail(clients: seq<string>, c: string)
    requires clients != [] && c in clients && c != clients[0]
    ensures Pos(clients, c) == Pos(clients[1..], c) + 1 && c in clients[1..]
  {
  }

  lemma OrderedTail(clients: seq<string>, rows: seq<Row>)
    requires clients != [] && Ordered(clients, rows) && forall i | 0 <= i < |rows| :: rows[i].client != clients[0]
    ensures Ordered(clients[1..], rows)
  {
    forall i | 0 <= i < |rows| ensures rows[i].client in clients[1..] { PosTail(clients, rows[i].client); }
    forall i, j | 0 <= i < j < |rows| ensures Pos(clients[1..], rows[i].client) < Pos(clients[1..], rows[j].client) {
      PosTail(clients, rows[i].client);
      PosTail(clients, rows[j].client);
    }
  }

  lemma OrderedCons(clients: seq<string>, rows: seq<Row>)
    requires clients != [] && Distinct(clients) && Ordered(clients[1..], rows)
    ensures Ordered(clients, rows) && forall i | 0 <= i < |rows| :: rows[i].client != clients[0]
  {
    DistinctTail(clients);
    forall i | 0 <= i < |rows| ensures rows[i].client in clients && rows[i].client != clients[0] {
      var p := Pos(clients[1..], rows[i].client);
      assert clients[p + 1] == rows[i].client;
    }
    forall i, j | 0 <= i < j < |rows| ensures Pos(clients, rows[i].client) < Pos(clients, rows[j].client) {
      PosTail(clients, rows[i].client);
      PosTail(clients, rows[j].client);
    }
  }

  /** The first client's row may stand before rows of the others. */
  lemma OrderedPush(clients: seq<string>, row: Row, rest: seq<Row>)
    requires clients != [] && row.client == clients[0] && Ordered(clients, rest)
    requires forall i | 0 <= i < |rest| :: rest[i].client != clients[0]
    ensures Ordered(clients, [row] + rest)
  {
    var rows := [row] + rest;
    forall i | 0 <= i < |rows| ensures rows[i].client in clients { assert i > 0 ==> rows[i] == rest[i - 1]; }
    forall i, j | 0 <= i < j < |rows| ensures Pos(clients, rows[i].client) < Pos(clients, rows[j].client) {
      assert rows[j] == rest[j - 1];
      if i == 0 { PosTail(clients, rows[j].client); } else { assert rows[i] == rest[i - 1]; }
    }
  }

  /** The canonical list is ordered. */
  lemma {:induction false} CanonOrdered(clients: seq<string>, m: map<string, Row>)
    requires Distinct(clients) && forall k | k in m :: m[k].client == k
    ensures Ordered(clients, Canon(clients, m))
  {
    if clients == [] {
    } else {
      DistinctTail(clients);
      CanonOrdered(clients[1..], m);
      OrderedCons(clients, Canon(clients[1..], m));
      if clients[0] in m { OrderedPush(clients, m[clients[0]], Canon(clients[1..], m)); }
    }
  }

  /** The canonical list has exactly the keyed rows of the clients. */
  lemma {:induction false} CanonMember(clients: seq<string>, m: map<string, Row>, r: Row)
    requires forall k | k in m :: m[k].client == k
    ensures r in Canon(clients, m) <==> r.client in clients && r.client in m && m[r.client] == r
  {
    if clients == [] {
    } else {
      CanonMember(clients[1..], m, r);
      assert r.client in clients <==> r.client == clients[0] || r.client in clients[1..];
      var head := if clients[0] in m then [m[clients[0]]] else [];
      assert r in head + Canon(clients[1..], m) <==> r in head || r in Canon(clients[1..], m);
    }
  }

  /** The rows are those keyed, in canonical order. */
  ghost predicate Lists(clients: seq<string>, m: map<string, Row>, rows: seq<Row>) {
    && Ordered(clients, rows)
    && (forall i | 0 <= i < |rows| :: rows[i].client in m && m[rows[i].client] == rows[i])
    && (forall k | k in clients && k in m :: m[k].client == k && m[k] in rows)
  }

  lemma HeadIsFirst(clients: seq<string>, rows: seq<Row>, i: nat)
    requires clients != [] && Ordered(clients, rows) && i < |rows| && rows[i].client == clients[0]
    ensures i == 0 && forall j | 0 < j < |rows| :: rows[j].client != clients[0]
  {
    assert Pos(clients, clients[0]) == 0 && Pos(clients, rows[0].client) >= 0;
    assert forall j | 0 < j < |rows| :: Pos(clients, rows[0].client) < Pos(clients, rows[j].client);
  }

  lemma TailKeeps(clients: seq<string>, m: map<string, Row>, rows: seq<Row>, k: string)
    requires Distinct(clients) && clients != [] && rows != [] && rows[0].client == clients[0]
    requires k in clients[1..] && k in m && m[k].client == k && m[k] in rows
    ensures m[k] in rows[1..]
  {
    var j :| 0 <= j < |rows| && rows[j] == m[k];
    var p :| 0 <= p < |clients[1..]| && clients[1..][p] == k;
    assert clients[p + 1] == k;
    assert rows[1..][j - 1] == rows[j];
  }

  lemma ListsHead(clients: seq<string>, m: map<string, Row>, rows: seq<Row>)
    requires Distinct(clients) && clients != [] && Lists(clients, m, rows) && clients[0] in m
    ensures rows != [] && rows[0] == m[clients[0]] && rows[0].client == clients[0]
    ensures Lists(clients[1..], m, rows[1..])
  {
    var c, rest := clients[0], rows[1..];
    var i :| 0 <= i < |rows| && rows[i] == m[c];
    HeadIsFirst(clients, rows, i);
    OrderedRest(clients, rows);
    OrderedTail(clients, rest);
    forall k | k in clients[1..] && k in m ensures m[k].client == k && m[k] in rest {
      TailKeeps(clients, m, rows, k);
    }
  }

  lemma ListsSkip(clients: seq<string>, m: map<string, Row>, rows: seq<Row>)
    requires clients != [] && Lists(clients, m, rows) && clients[0] !in m
    ensures Lists(clients[1..], m, rows)
  {
    OrderedTail(clients, rows);
  }

  lemma {:induction false} CanonIs(clients: seq<string>, m: map<string, Row>, rows: seq<Row>)
    requires Distinct(clients) && Lists(clients, m, rows)
    ensures Canon(clients, m) == rows
  {
    assert rows != [] ==> rows[0].client in clients;
    if clients == [] {
    } else {
      DistinctTail(clients);
      if clients[0] in m {
        ListsHead(clients, m, rows);
        CanonIs(clients[1..], m, rows[1..]);
        assert rows == [rows[0]] + rows[1..];
      } else {
        ListsSkip(clients, m, rows);
        CanonIs(clients[1..], m, rows);
      }
    }
  }

  lemma OrderedRest(clients: seq<string>, rows: seq<Row>)
    requires Ordered(clients, rows) && rows != []
    ensures Ordered(clients, rows[1..])
  {
  }

  lemma {:induction false} ByIdHolds(rows: seq<Row>)
    ensures forall k | k in ById(rows) :: ById(rows)[k] in rows && ById(rows)[k].client == k
    ensures forall i | 0 <= i < |rows| :: rows[i].client in ById(rows)
  {
    if rows == [] {
    } else {
      ByIdHolds(rows[..|rows| - 1]);
    }
  }

  /** No two ordered rows are of the same client. */
  lemma OrderedApart(clients: seq<string>, rows: seq<Row>)
    requires Ordered(clients, rows)
    ensures forall i, j | 0 <= i < j < |rows| :: rows[i].client != rows[j].client
  {
    forall i, j | 0 <= i < j < |rows| ensures rows[i].client != rows[j].client {
      assert Pos(clients, rows[i].client) < Pos(clients, rows[j].client);
    }
  }

  lemma ByIdAt(clients: seq<string>, rows: seq<Row>, i: nat)
    requires Ordered(clients, rows) && i < |rows|
    ensures rows[i].client in ById(rows) && ById(rows)[rows[i].client] == rows[i]
  {
    ByIdHolds(rows);
    var j :| 0 <= j < |rows| && rows[j] == ById(rows)[rows[i].client];
    OrderedApart(clients, rows);
  }

  /** Keying ordered rows by client loses nothing. */
  lemma ByIdOf(clients: seq<string>, rows: seq<Row>)
    requires Distinct(clients) && Ordered(clients, rows)
    ensures Keyed(clients, ById(rows)) && Canon(clients, ById(rows)) == rows
  {
    var m := ById(rows);
    ByIdHolds(rows);
    forall i | 0 <= i < |rows| ensures rows[i].client in m && m[rows[i].client] == rows[i] { ByIdAt(clients, rows, i); }
    assert Lists(clients, m, rows);
    CanonIs(clients, m, rows);
  }

  lemma ByIdOfCanonAt(clients: seq<string>, m: map<string, Row>, k: string)
    requires Distinct(clients) && Keyed(clients, m)
    ensures k in m <==> k in ById(Canon(clients, m))
    ensures k in m ==> ById(Canon(clients, m))[k] == m[k]
  {
    var rows := Canon(clients, m);
    if k in m {
      var i := Standing(clients, m, k);
      CanonOrdered(clients, m);
      ByIdAt(clients, rows, i);
    }
    if k in ById(rows) {
      ByIdHolds(rows);
      CanonMember(clients, m, ById(rows)[k]);
    }
  }

  /** And the other way round. */
  lemma ByIdOfCanon(clients: seq<string>, m: map<string, Row>)
    requires Distinct(clients) && Keyed(clients, m)
    ensures Ordered(clients, Canon(clients, m)) && ById(Canon(clients, m)) == m
  {
    CanonOrdered(clients, m);
    var n := ById(Canon(clients, m));
    forall k ensures (k in m <==> k in n) && (k in m ==> n[k] == m[k]) { ByIdOfCanonAt(clients, m, k); }
  }

  ghost predicate EachAndPairs(m: map<string, Row>, ok: Row -> bool, apart: (Row, Row) -> bool) {
    (forall k | k in m :: ok(m[k])) && (forall k, l | k in m && l in m && k != l :: apart(m[k], m[l]))
  }

  ghost predicate EachAndLater(rows: seq<Row>, ok: Row -> bool, apart: (Row, Row) -> bool) {
    (forall i | 0 <= i < |rows| :: ok(rows[i])) && (forall i, j | 0 <= i < j < |rows| :: apart(rows[i], rows[j]))
  }

  /** Where a keyed row stands in the list. */
  lemma Standing(clients: seq<string>, m: map<string, Row>, k: string) returns (i: nat)
    requires Distinct(clients) && Keyed(clients, m) && k in m
    ensures i < |Canon(clients, m)| && Canon(clients, m)[i] == m[k]
  {
    CanonMember(clients, m, m[k]);
    i :| 0 <= i < |Canon(clients, m)| && Canon(clients, m)[i] == m[k];
  }

  lemma PairsFromList(clients: seq<string>, m: map<string, Row>, ok: Row -> bool, apart: (Row, Row) -> bool, k: string,
                      l: string)
    requires Distinct(clients) && Keyed(clients, m) && EachAndLater(Canon(clients, m), ok, apart)
    requires k in m && l in m && k != l
    ensures apart(m[k], m[l]) || apart(m[l], m[k])
  {
    var i := Standing(clients, m, k);
    var j := Standing(clients, m, l);
  }

  lemma OneFromList(clients: seq<string>, m: map<string, Row>, ok: Row -> bool, apart: (Row, Row) -> bool, k: string)
    requires Distinct(clients) && Keyed(clients, m) && EachAndLater(Canon(clients, m), ok, apart) && k in m
    ensures ok(m[k])
  {
    var i := Standing(clients, m, k);
  }

  lemma PairsToList(clients: seq<string>, m: map<string, Row>, ok: Row -> bool, apart: (Row, Row) -> bool)
    requires Distinct(clients) && Keyed(clients, m) && EachAndPairs(m, ok, apart)
    ensures EachAndLater(Canon(clients, m), ok, apart)
  {
    var rows := Canon(clients, m);
    CanonOrdered(clients, m);
    forall i | 0 <= i < |rows| ensures rows[i].client in m && m[rows[i].client] == rows[i] {
      assert rows[i] in rows;
      CanonMember(clients, m, rows[i]);
    }
    OrderedApart(clients, rows);
    forall i, j | 0 <= i < j < |rows| ensures apart(rows[i], rows[j]) {
      assert apart(m[rows[i].client], m[rows[j].client]);
    }
  }

  /** A property of rows, and a symmetric one of pairs, hold of the list as they hold of the keyed rows. */
  lemma PairsByKey(clients: seq<string>, m: map<string, Row>, ok: Row -> bool, apart: (Row, Row) -> bool)
    requires Distinct(clients) && Keyed(clients, m) && forall a, b :: apart(a, b) == apart(b, a)
    ensures EachAndLater(Canon(clients, m), ok, apart) <==> EachAndPairs(m, ok, apart)
  {
    if EachAndLater(Canon(clients, m), ok, apart) {
      forall k | k in m ensures ok(m[k]) { OneFromList(clients, m, ok, apart, k); }
      forall k, l | k in m && l in m && k != l ensures apart(m[k], m[l]) { PairsFromList(clients, m, ok, apart, k, l); }
    }
    if EachAndPairs(m, ok, apart) { PairsToList(clients, m, ok, apart); }
  }

  /** Ordered rows as many as there are clients are one row for every client, in order. */
  lemma FullListsAll(clients: seq<string>, rows: seq<Row>)
    requires Distinct(clients) && Ordered(clients, rows)
    ensures |rows| <= |clients|
    ensures |rows| == |clients|
            <==> |rows| >= |clients| && forall i | 0 <= i < |clients| :: rows[i].client == clients[i]
  {
    if rows != [] { PosAtLeast(clients, rows, |rows| - 1); }
    if |rows| == |clients| {
      forall i | 0 <= i < |rows| ensures rows[i].client == clients[i] { PosAtMost(clients, rows, i); }
    }
  }

  lemma {:induction false} PosAtLeast(clients: seq<string>, rows: seq<Row>, i: nat)
    requires Ordered(clients, rows) && i < |rows|
    ensures i <= Pos(clients, rows[i].client) < |clients|
  {
    assert rows[i].client in clients;
    if i == 0 {
    } else {
      PosAtLeast(clients, rows, i - 1);
      assert Pos(clients, rows[i - 1].client) < Pos(clients, rows[i].client);
    }
  }

  lemma {:induction false} PosAtMost(clients: seq<string>, rows: seq<Row>, i: nat)
    requires Ordered(clients, rows) && |rows| == |clients| && i < |rows|
    ensures Pos(clients, rows[i].client) == i
    decreases |rows| - i
  {
    PosAtLeast(clients, rows, i);
    if i + 1 == |rows| {
    } else {
      PosAtMost(clients, rows, i + 1);
      assert Pos(clients, rows[i].client) < Pos(clients, rows[i + 1].client);
    }
  }
}

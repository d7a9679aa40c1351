/** `validate_existing` and `merge` as they run, with their dictionaries of keys already seen, proved
    against the predicates and the function that specify them. */
module AdmissionChecks {
  import opened Collections
  import opened Text
  import opened Admission
  import opened AdmissionRows

  function AllIds(rows: seq<Row>, ids: Row -> set<string>): set<string> {
    set r, id | r in rows && id in ids(r) :: id
  }

  lemma IdsSnoc(rows: seq<Row>, row: Row, ids: Row -> set<string>)
    ensures AllIds(rows + [row], ids) == AllIds(rows, ids) + ids(row)
  {
    var more := rows + [row];
    assert row in more;
    assert forall r | r in rows :: r in more;
  }

  function ExecutionKey(r: Row): string { PythonStrip(r.executionId) }
  function ProviderKey(r: Row): string { PythonStrip(r.providerRef) }
  function EvidenceKey(r: Row): string { r.evidence }
  function ReceiptKey(r: Row): string { r.receiptSha }
  function ChallengeKey(r: Row): string { r.challenge }

  datatype Seen = Seen(executions: set<string>, providers: set<string>, evidence: set<string>, receipts: set<string>,
                       challenges: set<string>, ids: set<string>)

  predicate SeenIn(seen: Seen, rows: seq<Row>) {
    && seen.executions == Keys(rows, ExecutionKey) && seen.providers == Keys(rows, ProviderKey)
    && seen.evidence == Keys(rows, EvidenceKey) && seen.receipts == Keys(rows, ReceiptKey)
    && seen.challenges == Keys(rows, ChallengeKey) && seen.ids == AllIds(rows, Ids)
  }

  predicate Unseen(seen: Seen, row: Row) {
    && ExecutionKey(row) !in seen.executions && ProviderKey(row) !in seen.providers && row.evidence !in seen.evidence
    && row.receiptSha !in seen.receipts && row.challenge !in seen.challenges && Ids(row) !! seen.ids
  }

  function SeeRow(seen: Seen, row: Row): Seen {
    Seen(seen.executions + {ExecutionKey(row)}, seen.providers + {ProviderKey(row)}, seen.evidence + {row.evidence},
         seen.receipts + {row.receiptSha}, seen.challenges + {row.challenge}, seen.ids + Ids(row))
  }

  lemma SeeOneMore(seen: Seen, rows: seq<Row>, row: Row)
    requires SeenIn(seen, rows)
    ensures SeenIn(SeeRow(seen, row), rows + [row])
  {
    KeysSnoc(rows, row, ExecutionKey);
    KeysSnoc(rows, row, ProviderKey);
    KeysSnoc(rows, row, EvidenceKey);
    KeysSnoc(rows, row, ReceiptKey);
    KeysSnoc(rows, row, ChallengeKey);
    IdsSnoc(rows, row, Ids);
  }

  lemma UnseenOne(seen: Seen, rows: seq<Row>, r: Row, row: Row)
    requires SeenIn(seen, rows) && Unseen(seen, row) && r in rows && r.execution == row.execution
    ensures Apart(r, row)
  {
    assert ExecutionKey(r) in seen.executions && ProviderKey(r) in seen.providers && EvidenceKey(r) in seen.evidence;
    assert ReceiptKey(r) in seen.receipts && ChallengeKey(r) in seen.challenges;
    forall id | id in Ids(r) ensures id !in Ids(row) { assert id in seen.ids; }
  }

  lemma SeenOne(seen: Seen, rows: seq<Row>, row: Row)
    requires SeenIn(seen, rows) && !Unseen(seen, row)
    ensures exists r | r in rows :: !Apart(r, row)
  {
    if ExecutionKey(row) in seen.executions {
      var r :| r in rows && ExecutionKey(r) == ExecutionKey(row);
    } else if ProviderKey(row) in seen.providers {
      var r :| r in rows && ProviderKey(r) == ProviderKey(row);
    } else if row.evidence in seen.evidence {
      var r :| r in rows && EvidenceKey(r) == row.evidence;
    } else if row.receiptSha in seen.receipts {
      var r :| r in rows && ReceiptKey(r) == row.receiptSha;
    } else if row.challenge in seen.challenges {
      var r :| r in rows && ChallengeKey(r) == row.challenge;
    } else {
      var id :| id in Ids(row) && id in seen.ids;
      var r :| r in rows && id in Ids(r);
    }
  }

  /** `validate_rows`: one bound execution for all rows, or none for any. */
  method CheckExecutions(rows: seq<Row>) returns (ok: bool)
    ensures ok <==> forall i, j | 0 <= i < j < |rows| :: rows[i].execution == rows[j].execution
  {
    for n := 0 to |rows|
      invariant forall i | 0 <= i < n :: rows[i].execution == rows[0].execution
    {
      if rows[n].execution != rows[0].execution { return false; }
    }
    return true;
  }

  ghost predicate Good(rows: seq<Row>, clients: seq<string>, ok: Row -> bool, apart: (Row, Row) -> bool) {
    Ordered(clients, rows) && EachAndLater(rows, ok, apart)
  }

  lemma OrderedSnocHas(clients: seq<string>, before: seq<Row>, row: Row)
    requires Ordered(clients, before + [row])
    ensures row.client in clients
    ensures before != [] ==> Pos(clients, before[|before| - 1].client) < Pos(clients, row.client)
  {
    var n, after := |before|, before + [row];
    assert after[n] == row;
    if n > 0 {
      assert after[n - 1] == before[n - 1];
      assert Pos(clients, after[n - 1].client) < Pos(clients, after[n].client);
    }
  }

  ghost predicate Rising<T>(xs: seq<T>, place: T -> int) {
    forall i, j | 0 <= i < j < |xs| :: place(xs[i]) < place(xs[j])
  }

  lemma RisingSnoc<T>(xs: seq<T>, x: T, place: T -> int)
    requires Rising(xs, place) && (xs != [] ==> place(xs[|xs| - 1]) < place(x))
    ensures Rising(xs + [x], place)
  {
    var n, more := |xs|, xs + [x];
    forall i, j | 0 <= i < j < |more| ensures place(more[i]) < place(more[j]) {
      if j == n && i < n - 1 { assert place(xs[i]) < place(xs[n - 1]); }
    }
  }

  lemma OrderedSnocGets(clients: seq<string>, before: seq<Row>, row: Row)
    requires Ordered(clients, before) && row.client in clients
    requires before != [] ==> Pos(clients, before[|before| - 1].client) < Pos(clients, row.client)
    ensures Ordered(clients, before + [row])
  {
    var after, place := before + [row], (r: Row) => Pos(clients, r.client);
    RisingSnoc(before, row, place);
    forall i, j | 0 <= i < j < |after| ensures Pos(clients, after[i].client) < Pos(clients, after[j].client) {
      assert place(after[i]) < place(after[j]);
    }
  }

  lemma OrderedSnoc(clients: seq<string>, before: seq<Row>, row: Row)
    requires Ordered(clients, before)
    ensures Ordered(clients, before + [row]) <==>
            && row.client in clients
            && (before != [] ==> Pos(clients, before[|before| - 1].client) < Pos(clients, row.client))
  {
    if Ordered(clients, before + [row]) { OrderedSnocHas(clients, before, row); }
    if && row.client in clients
       && (before != [] ==> Pos(clients, before[|before| - 1].client) < Pos(clients, row.client)) {
      OrderedSnocGets(clients, before, row);
    }
  }

  lemma EachSnoc(before: seq<Row>, row: Row, ok: Row -> bool, apart: (Row, Row) -> bool)
    requires EachAndLater(before, ok, apart)
    ensures EachAndLater(before + [row], ok, apart) <==> ok(row) && forall r | r in before :: apart(r, row)
  {
    var n, after := |before|, before + [row];
    assert after[n] == row;
    if EachAndLater(after, ok, apart) {
      forall r | r in before ensures apart(r, row) {
        var i :| 0 <= i < n && before[i] == r;
        assert apart(after[i], after[n]);
      }
    }
  }

  lemma GoodPrefix(rows: seq<Row>, n: nat, clients: seq<string>, ok: Row -> bool, apart: (Row, Row) -> bool)
    requires n <= |rows|
    ensures Good(rows, clients, ok, apart) ==> Good(rows[..n], clients, ok, apart)
  {
  }

  /** What one turn of the row loop decides. */
  lemma Turn(clients: seq<string>, before: seq<Row>, row: Row, seen: Seen, ok: Row -> bool)
    requires Good(before, clients, ok, Apart) && SeenIn(seen, before)
    requires forall r | r in before :: r.execution == row.execution
    ensures Good(before + [row], clients, ok, Apart) <==>
            && row.client in clients
            && (before != [] ==> Pos(clients, before[|before| - 1].client) < Pos(clients, row.client))
            && ok(row) && Unseen(seen, row)
  {
    OrderedSnoc(clients, before, row);
    EachSnoc(before, row, ok, Apart);
    if Unseen(seen, row) {
      forall r | r in before ensures Apart(r, row) { UnseenOne(seen, before, r, row); }
    } else {
      SeenOne(seen, before, row);
    }
  }

  ghost predicate Scanned(clients: seq<string>, rows: seq<Row>, ok: Row -> bool, seen: Seen, last: int) {
    && Good(rows, clients, ok, Apart) && SeenIn(seen, rows)
    && last == if rows == [] then -1 else Pos(clients, rows[|rows| - 1].client)
  }

  method ScanRow(clients: seq<string>, ghost before: seq<Row>, row: Row, ok: Row -> bool, seen: Seen, last: int)
    returns (good: bool, seen': Seen, at: int)
    requires Scanned(clients, before, ok, seen, last) && forall r | r in before :: r.execution == row.execution
    ensures good <==> Good(before + [row], clients, ok, Apart)
    ensures good ==> Scanned(clients, before + [row], ok, seen', at)
  {
    at := Pos(clients, row.client);
    Turn(clients, before, row, seen, ok);
    good := at > last && ok(row) && Unseen(seen, row);
    seen' := SeeRow(seen, row);
    SeeOneMore(seen, before, row);
  }

  /** The first `n` rows and the next one. */
  lemma NextRow(rows: seq<Row>, n: nat)
    requires n < |rows| && forall i, j | 0 <= i < j < |rows| :: rows[i].execution == rows[j].execution
    ensures rows[..n + 1] == rows[..n] + [rows[n]]
    ensures ById(rows[..n + 1]) == ById(rows[..n])[rows[n].client := rows[n]]
    ensures forall r | r in rows[..n] :: r.execution == rows[n].execution
  {
    assert rows[..n + 1][..n] == rows[..n];
  }

  method ScanRows(clients: seq<string>, rows: seq<Row>, ok: Row -> bool) returns (good: bool, byId: map<string, Row>)
    requires forall i, j | 0 <= i < j < |rows| :: rows[i].execution == rows[j].execution
    ensures good <==> Good(rows, clients, ok, Apart)
    ensures good ==> byId == ById(rows)
  {
    byId := map[];
    var seen, last := Seen({}, {}, {}, {}, {}, {}), -1;
    NothingScanned(clients, ok);
    for n := 0 to |rows|
      invariant Scanned(clients, rows[..n], ok, seen, last) && byId == ById(rows[..n])
    {
      NextRow(rows, n);
      good, seen, last := ScanRow(clients, rows[..n], rows[n], ok, seen, last);
      if !good {
        GoodPrefix(rows, n + 1, clients, ok, Apart);
        return false, byId;
      }
      byId := byId[rows[n].client := rows[n]];
    }
    assert rows[..|rows|] == rows;
    good := true;
  }

  lemma NothingScanned(clients: seq<string>, ok: Row -> bool)
    ensures Scanned(clients, [], ok, Seen({}, {}, {}, {}, {}, {}), -1)
  {
  }

  /** The row loop of `validate_existing`, which also keys the rows by client. */
  method CheckRows(w: Rules, h: Header, trusted: map<string, string>, rows: seq<Row>)
    returns (ok: bool, byId: map<string, Row>)
    ensures ok <==> RowsOk(w, h, trusted, rows)
    ensures ok ==> byId == ById(rows)
  {
    byId := map[];
    ok := CheckExecutions(rows);
    if ok { ok, byId := ScanRows(w.clients, rows, r => RowOk(w, h, trusted, r)); }
  }

  /** `validate_existing` */
  method ValidateExisting(w: Rules, p: Progress, h: Header, trusted: map<string, string>)
    returns (ok: bool, byId: map<string, Row>)
    ensures ok <==> ValidExisting(w, p, h, trusted)
    ensures ok ==> byId == ById(p.clients)
  {
    if || !HeaderOk(w, p.header, p.trusted) || p.header != h || p.trusted != trusted
       || p.runtimeCertified || p.physicalCertified {
      return false, map[];
    }
    ok, byId := CheckRows(w, h, trusted, p.clients);
    var complete := |p.clients| == |w.clients|;
    ok := ok && p.allPass && p.count == |p.clients| && p.complete == complete && p.certificationPass == complete
          && p.witnessPass == complete;
  }

  method CheckWindow(c: Campaign, rows: seq<Row>) returns (ok: bool)
    ensures ok <==> forall i | 0 <= i < |rows| :: InWindow(c, rows[i])
  {
    for n := 0 to |rows|
      invariant forall i | 0 <= i < n :: InWindow(c, rows[i])
    {
      if !InWindow(c, rows[n]) { return false; }
    }
    return true;
  }

  /** The first half of `merge`: what of an existing document carries over. */
  method LoadExisting(w: Rules, c: Campaign, existing: Option<Progress>, supersede: bool)
    returns (ok: bool, byId: map<string, Row>, rows: seq<Row>)
    ensures Start(w, c, existing, supersede) == if ok then Some(rows) else None
    ensures ok ==> byId == ById(rows)
  {
    rows, byId := [], map[];
    if existing.None? { return true, byId, rows; }
    var p := existing.value;
    if p.header != c.header {
      if !supersede { return false, byId, rows; }
      var valid, prior := ValidateExisting(w, p, p.header, p.trusted);
      ok := valid && !p.complete && |p.clients| < |w.clients|;
    } else {
      ok, byId := ValidateExisting(w, p, c.header, c.trusted);
      rows := p.clients;
      if ok { ok := CheckWindow(c, p.clients); }
    }
  }

  datatype Used = Used(executions: set<string>, evidence: set<string>, providers: set<string>, ids: set<string>)

  function RawExecution(r: Row): string { r.executionId }
  function RawProvider(r: Row): string { r.providerRef }
  function RawIds(r: Row): set<string> { set k | k in r.requestIds :: r.requestIds[k] }

  /** The `used` dictionaries, filled from the admitted rows as they stand. */
  method CollectUsed(byId: map<string, Row>) returns (used: Used)
    ensures forall row :: (exists k | k in byId :: Reuses(byId[k], row)) <==> Taken(used, row)
  {
    used := Used({}, {}, {}, {});
    var rest := byId.Keys;
    ghost var done: seq<Row> := [];
    while rest != {}
      invariant rest <= byId.Keys
      invariant forall k | k in byId && k !in rest :: byId[k] in done
      invariant forall r | r in done :: exists k :: k in byId && byId[k] == r
      invariant UsedIn(used, done)
    {
      var k :| k in rest;
      var r := byId[k];
      UseOneMore(used, done, r);
      used := Used(used.executions + {r.executionId}, used.evidence + {r.evidence}, used.providers + {r.providerRef},
                   used.ids + RawIds(r));
      done := done + [r];
      rest := rest - {k};
    }
    forall row ensures (exists k | k in byId :: Reuses(byId[k], row)) <==> Taken(used, row) {
      TakenIff(used, done, row);
      if k :| k in byId && Reuses(byId[k], row) { assert byId[k] in done; }
      if Taken(used, row) {
        var r :| r in done && Reuses(r, row);
        var k :| k in byId && byId[k] == r;
      }
    }
  }

  predicate UsedIn(used: Used, rows: seq<Row>) {
    && used.executions == Keys(rows, RawExecution) && used.evidence == Keys(rows, EvidenceKey)
    && used.providers == Keys(rows, RawProvider) && used.ids == AllIds(rows, RawIds)
  }

  predicate Taken(used: Used, row: Row) {
    row.executionId in used.executions || row.evidence in used.evidence || row.providerRef in used.providers
    || exists k | k in row.requestIds :: row.requestIds[k] in used.ids
  }

  lemma UseOneMore(used: Used, rows: seq<Row>, r: Row)
    requires UsedIn(used, rows)
    ensures UsedIn(Used(used.executions + {r.executionId}, used.evidence + {r.evidence},
                        used.providers + {r.providerRef}, used.ids + RawIds(r)),
                   rows + [r])
  {
    KeysSnoc(rows, r, RawExecution);
    KeysSnoc(rows, r, EvidenceKey);
    KeysSnoc(rows, r, RawProvider);
    IdsSnoc(rows, r, RawIds);
  }

  lemma TakenIff(used: Used, rows: seq<Row>, row: Row)
    requires UsedIn(used, rows)
    ensures Taken(used, row) <==> exists r | r in rows :: Reuses(r, row)
  {
    if Taken(used, row) {
      if row.executionId in used.executions {
        var r :| r in rows && RawExecution(r) == row.executionId;
        assert Reuses(r, row);
      } else if row.evidence in used.evidence {
        var r :| r in rows && EvidenceKey(r) == row.evidence;
        assert Reuses(r, row);
      } else if row.providerRef in used.providers {
        var r :| r in rows && RawProvider(r) == row.providerRef;
        assert Reuses(r, row);
      } else {
        var k :| k in row.requestIds && row.requestIds[k] in used.ids;
        var r :| r in rows && row.requestIds[k] in RawIds(r);
        assert Reuses(r, row);
      }
    }
    if r :| r in rows && Reuses(r, row) {
      assert RawExecution(r) in used.executions && EvidenceKey(r) in used.evidence && RawProvider(r) in used.providers;
      if a, b :| a in r.requestIds && b in row.requestIds && r.requestIds[a] == row.requestIds[b] {
        assert r.requestIds[a] in RawIds(r);
        assert row.requestIds[b] in used.ids;
      }
    }
  }

  method Canonical(clients: seq<string>, m: map<string, Row>) returns (rows: seq<Row>)
    ensures rows == Canon(clients, m)
  {
    rows := [];
    for i := 0 to |clients|
      invariant rows + Canon(clients[i..], m) == Canon(clients, m)
    {
      if clients[i] in m { rows := rows + [m[clients[i]]]; }
      assert clients[i..][1..] == clients[i + 1..];
    }
  }

  /** The second half of `merge`: the verified row against the rows already keyed. */
  method AddRow(s: Scheme, byId: map<string, Row>, ghost rows: seq<Row>, a: Attempt, row: Row, reused: bool)
    returns (out: Option<seq<Row>>)
    requires s.verified(a) == Some(row) && byId == ById(rows)
             && (reused <==> exists k | k in byId :: s.reuses(byId[k], row))
    ensures out == Add(s, rows, a)
  {
    if a.client !in byId && reused { return None; }
    if a.client in byId && byId[a.client] != row { return None; }
    var listed := Canonical(s.clients, byId[a.client := row]);
    return Some(listed);
  }

  /** `merge` */
  method MergeReceipt(w: Rules, c: Campaign, existing: Option<Progress>, a: Attempt) returns (out: Option<Progress>)
    ensures out == Merge(w, c, existing, a)
  {
    var ok, byId, rows := LoadExisting(w, c, existing, a.supersede);
    if !ok { return None; }
    var verified := Verified(w, c, a);
    if verified.None? { return None; }
    var used := CollectUsed(byId);
    var listed := AddRow(SchemeOf(w, c), byId, rows, a, verified.value, Taken(used, verified.value));
    return if listed.None? then None else Some(Document(w, c, listed.value));
  }
}

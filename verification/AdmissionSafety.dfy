/** What incremental admission keeps: validity over every run, one result for every order of the same
    attempts, and a complete document that nothing alters. */
module AdmissionSafety {
  import opened Collections
  import opened Text
  import opened Admission
  import opened AdmissionRows
  import opened AdmissionOrders
  import Pins = ImagePins

  /** No two different receipt files among these attempts have the same digest. */
  ghost predicate CollisionFree(w: Rules, attempts: seq<Attempt>) {
    forall a, b | a in attempts && b in attempts :: w.hash(a.file) == w.hash(b.file) ==> a.file == b.file
  }

  lemma StripTwice(s: string)
    ensures PythonStrip(PythonStrip(s)) == PythonStrip(s)
  {
    TrimShape(s, IsPythonSpace);
    TrimTight(PythonStrip(s), IsPythonSpace);
  }

  lemma StrippedTwice(ids: map<string, string>)
    ensures Stripped(Stripped(ids)) == Stripped(ids)
  {
    forall k | k in ids ensures PythonStrip(PythonStrip(ids[k])) == PythonStrip(ids[k]) { StripTwice(ids[k]); }
  }

  // ---- what verification produces -----------------------------------------------------------

  /** The keys of the row are already as `validate_existing` reads them. */
  predicate Clean(row: Row) {
    && PythonStrip(row.executionId) == row.executionId && PythonStrip(row.providerRef) == row.providerRef
    && Stripped(row.requestIds) == row.requestIds
  }

  lemma RequestIdsStripped(w: Rules, ids: map<string, string>)
    requires RequestIdsOk(w, ids)
    ensures RequestIdsOk(w, Stripped(ids))
  {
    var s := Stripped(ids);
    assert s.Keys == ids.Keys;
    forall k | k in s ensures PythonStrip(s[k]) == s[k] { StripTwice(ids[k]); }
  }

  /** Every row that receipt and audit verification produce passes the row checks of `validate_existing`. */
  lemma VerifiedRow(w: Rules, c: Campaign, a: Attempt)
    requires RulesOk(w) && CampaignOk(w, c) && Verified(w, c, a).Some?
    ensures var row := Verified(w, c, a).value;
            && RowOk(w, c.header, c.trusted, row) && InWindow(c, row) && Clean(row)
            && row.client == a.client && row.challenge == c.challenges[a.client] && row.receiptSha == w.hash(a.file)
            && w.parse(a.file).Some? && w.parse(a.file).value.client == a.client
  {
    var r, row := w.parse(a.file).value, Verified(w, c, a).value;
    StripTwice(r.executionId);
    StripTwice(r.providerRef);
    StrippedTwice(r.requestIds);
    RequestIdsStripped(w, r.requestIds);
    assert row.executionId == PythonStrip(r.executionId) && row.providerRef == PythonStrip(r.providerRef);
    assert DigestsOk(row) && WitnessOk(row) && TimesOk(row);
  }

  /** Receipts of different clients are different files, so digests that do not collide tell them apart. */
  lemma ReceiptsDiffer(w: Rules, c: Campaign, a: Attempt, b: Attempt)
    requires RulesOk(w) && CampaignOk(w, c) && (w.hash(a.file) == w.hash(b.file) ==> a.file == b.file)
    requires Verified(w, c, a).Some? && Verified(w, c, b).Some? && a.client != b.client
    ensures Verified(w, c, a).value.receiptSha != Verified(w, c, b).value.receiptSha
  {
    VerifiedRow(w, c, a);
    VerifiedRow(w, c, b);
  }

  lemma CleanIds(row: Row)
    requires Clean(row)
    ensures forall id :: id in Ids(row) <==> exists k :: k in row.requestIds && row.requestIds[k] == id
  {
    forall k | k in row.requestIds ensures PythonStrip(row.requestIds[k]) == row.requestIds[k] {
      assert Stripped(row.requestIds)[k] == row.requestIds[k];
    }
  }

  lemma CleanReuse(x: Row, y: Row)
    requires Clean(x) && Clean(y)
    ensures Reuses(x, y)
            <==> || x.executionId == y.executionId || x.evidence == y.evidence || x.providerRef == y.providerRef
                 || !(Ids(x) !! Ids(y))
  {
    CleanIds(x);
    CleanIds(y);
    if a, b :| a in x.requestIds && b in y.requestIds && x.requestIds[a] == y.requestIds[b] {
      assert x.requestIds[a] in Ids(x) && x.requestIds[a] in Ids(y);
    }
    if id :| id in Ids(x) && id in Ids(y) {
      var a :| a in x.requestIds && x.requestIds[a] == id;
      var b :| b in y.requestIds && y.requestIds[b] == id;
      assert x.requestIds[a] == y.requestIds[b];
    }
  }

  /** On verified rows of different clients the reuse checks of `merge` find exactly what
      `validate_existing` would refuse. */
  lemma ApartIffUnreused(w: Rules, c: Campaign, a: Attempt, b: Attempt)
    requires RulesOk(w) && CampaignOk(w, c) && (w.hash(a.file) == w.hash(b.file) ==> a.file == b.file)
    requires Verified(w, c, a).Some? && Verified(w, c, b).Some? && a.client != b.client
    ensures Apart(Verified(w, c, a).value, Verified(w, c, b).value)
            <==> !Reuses(Verified(w, c, a).value, Verified(w, c, b).value)
  {
    VerifiedRow(w, c, a);
    VerifiedRow(w, c, b);
    ReceiptsDiffer(w, c, a, b);
    CleanReuse(Verified(w, c, a).value, Verified(w, c, b).value);
  }

  lemma SchemeLaws(w: Rules, c: Campaign)
    requires RulesOk(w) && CampaignOk(w, c)
    ensures Laws(SchemeOf(w, c))
  {
    var s := SchemeOf(w, c);
    forall a | s.verified(a).Some?
      ensures s.verified(a).value.client == a.client && a.client in s.clients && s.ok(s.verified(a).value)
    {
      VerifiedRow(w, c, a);
    }
  }

  lemma SchemeExact(w: Rules, c: Campaign, attempts: seq<Attempt>)
    requires RulesOk(w) && CampaignOk(w, c) && CollisionFree(w, attempts)
    ensures Exact(SchemeOf(w, c), attempts)
  {
    var s := SchemeOf(w, c);
    forall a, b | a in attempts && b in attempts && a.client != b.client && s.verified(a).Some? && s.verified(b).Some?
      ensures s.apart(s.verified(a).value, s.verified(b).value) == !s.reuses(s.verified(a).value, s.verified(b).value)
    {
      ApartIffUnreused(w, c, a, b);
    }
  }

  lemma FewerCollide(w: Rules, fewer: seq<Attempt>, attempts: seq<Attempt>)
    requires CollisionFree(w, attempts) && forall a | a in fewer :: a in attempts
    ensures CollisionFree(w, fewer)
  {
  }

  // ---- documents and rows -------------------------------------------------------------------

  /** The document of valid rows is accepted, and merging starts from those rows. */
  lemma DocumentValid(w: Rules, c: Campaign, rows: seq<Row>)
    requires RulesOk(w) && CampaignOk(w, c)
    ensures RowsValid(SchemeOf(w, c), rows) ==> ValidExisting(w, Document(w, c, rows), c.header, c.trusted)
    ensures ValidExisting(w, Document(w, c, rows), c.header, c.trusted)
            && (forall i | 0 <= i < |rows| :: InWindow(c, rows[i]))
            ==> RowsValid(SchemeOf(w, c), rows)
  {
    var s := SchemeOf(w, c);
    if RowsValid(s, rows) {
      assert forall i | 0 <= i < |rows| :: s.ok(rows[i]);
      assert forall i, j | 0 <= i < j < |rows| :: s.apart(rows[i], rows[j]);
    }
  }

  /** Merging into the document of valid rows starts from those rows. */
  lemma StartOf(w: Rules, c: Campaign, rows: seq<Row>, supersede: bool)
    requires RulesOk(w) && CampaignOk(w, c) && RowsValid(SchemeOf(w, c), rows)
    ensures Start(w, c, Some(Document(w, c, rows)), supersede) == Some(rows)
  {
    DocumentValid(w, c, rows);
    forall i | 0 <= i < |rows| ensures InWindow(c, rows[i]) { assert SchemeOf(w, c).ok(rows[i]); }
  }

  lemma StartRows(w: Rules, c: Campaign, existing: Option<Progress>, supersede: bool)
    requires RulesOk(w) && CampaignOk(w, c) && Start(w, c, existing, supersede).Some?
    ensures var rows := Start(w, c, existing, supersede).value;
            && RowsValid(SchemeOf(w, c), rows)
            && (existing.Some? && existing.value.header == c.header ==> existing.value == Document(w, c, rows))
            && (existing.None? || existing.value.header != c.header ==> rows == [])
  {
    if existing.Some? && existing.value.header == c.header {
      var p := existing.value;
      assert p == Document(w, c, p.clients);
      DocumentValid(w, c, p.clients);
    }
  }

  // ---- one merge ----------------------------------------------------------------------------

  /** What `merge` leaves unchecked on an admitted row: its keys once stripped, and two digests. */
  predicate Unshared(e: Row, row: Row) {
    && PythonStrip(e.executionId) != row.executionId && PythonStrip(e.providerRef) != row.providerRef
    && e.receiptSha != row.receiptSha && e.challenge != row.challenge && Ids(e) !! Ids(row)
  }

  lemma ApartIffUnshared(c: Campaign, e: Row, row: Row)
    requires InWindow(c, e) && InWindow(c, row) && Clean(row) && !Reuses(e, row)
    ensures Apart(e, row) <==> Unshared(e, row)
  {
  }

  lemma DocumentValidIff(w: Rules, c: Campaign, rows: seq<Row>)
    requires RulesOk(w) && CampaignOk(w, c) && forall i | 0 <= i < |rows| :: InWindow(c, rows[i])
    ensures ValidExisting(w, Document(w, c, rows), c.header, c.trusted) <==> RowsValid(SchemeOf(w, c), rows)
  {
    DocumentValid(w, c, rows);
  }

  /** On admitted rows that reuse nothing of the new one, the pair check is what `merge` leaves unchecked. */
  lemma UnsharedByKey(w: Rules, c: Campaign, m: map<string, Row>, row: Row)
    requires InWindow(c, row) && Clean(row)
    requires forall k | k in m :: SchemeOf(w, c).ok(m[k]) && !Reuses(m[k], row)
    ensures (forall k | k in m :: Apart(m[k], row)) <==> forall k | k in m :: Unshared(m[k], row)
  {
    forall k | k in m ensures Apart(m[k], row) <==> Unshared(m[k], row) {
      assert SchemeOf(w, c).ok(m[k]);
      ApartIffUnshared(c, m[k], row);
    }
  }

  /** The same condition on the rows alone. */
  lemma AddUnsharedIff(w: Rules, c: Campaign, rows: seq<Row>, a: Attempt)
    requires RulesOk(w) && CampaignOk(w, c) && RowsValid(SchemeOf(w, c), rows) && Add(SchemeOf(w, c), rows, a).Some?
    ensures var m, row := ById(rows), Verified(w, c, a).value;
            RowsValid(SchemeOf(w, c), Add(SchemeOf(w, c), rows, a).value)
            <==> a.client in m || forall k | k in m :: Unshared(m[k], row)
  {
    var s, m, row := SchemeOf(w, c), ById(rows), Verified(w, c, a).value;
    SchemeLaws(w, c);
    AddValidIff(s, rows, a);
    if a.client !in m {
      VerifiedRow(w, c, a);
      ValidByKey(s, rows);
      AddUnreused(s, rows, a);
      UnsharedByKey(w, c, m, row);
    }
  }

  /** A successful merge writes a document that `validate_existing` accepts if and only if it replays
      an admitted client, or the new row is unshared with every admitted row. */
  lemma MergeValidIff(w: Rules, c: Campaign, existing: Option<Progress>, a: Attempt)
    requires RulesOk(w) && CampaignOk(w, c) && Merge(w, c, existing, a).Some?
    ensures var m, row := ById(Start(w, c, existing, a.supersede).value), Verified(w, c, a).value;
            ValidExisting(w, Merge(w, c, existing, a).value, c.header, c.trusted)
            <==> a.client in m || forall k | k in m :: Unshared(m[k], row)
  {
    var rows := Start(w, c, existing, a.supersede).value;
    StartRows(w, c, existing, a.supersede);
    AddUnsharedIff(w, c, rows, a);
    AddInWindow(w, c, rows, a);
    DocumentValidIff(w, c, Add(SchemeOf(w, c), rows, a).value);
  }

  lemma StripPadded(s: string)
    requires PythonStrip(s) == s && s != ""
    ensures PythonStrip(s + " ") == s
  {
    TrimTight(s, IsPythonSpace);
    assert (s + " ")[0] == s[0] && (s + " ")[..|s|] == s;
    assert TrimLeft(s + " ", IsPythonSpace) == s + " ";
    assert TrimRight(s + " ", IsPythonSpace) == TrimRight(s, IsPythonSpace);
  }

  lemma OneRow(w: Rules, c: Campaign, row: Row)
    requires SchemeOf(w, c).ok(row)
    ensures RowsValid(SchemeOf(w, c), [row])
  {
    assert RowOk(w, c.header, c.trusted, row);
    OneOf(SchemeOf(w, c), row);
  }

  lemma OneOf(s: Scheme, row: Row)
    requires s.ok(row) && row.client in s.clients
    ensures RowsValid(s, [row])
  {
  }

  lemma OneById(row: Row)
    ensures ById([row]) == map[row.client := row]
  {
    assert ById([row]) == ById([])[row.client := row];
  }

  function Padded(x: Row, y: Row): Row {
    x.(executionId := y.executionId + " ")
  }

  lemma PaddedRow(w: Rules, c: Campaign, x: Row, y: Row)
    requires RowOk(w, c.header, c.trusted, x) && InWindow(c, x) && RowOk(w, c.header, c.trusted, y) && Clean(y)
             && !Reuses(x, y)
    ensures SchemeOf(w, c).ok(Padded(x, y)) && !Reuses(Padded(x, y), y) && !Unshared(Padded(x, y), y)
  {
    StripPadded(y.executionId);
    var row := Padded(x, y);
    assert WitnessOk(row) && TimesOk(row) && DigestsOk(row);
    assert RowOk(w, c.header, c.trusted, row) && InWindow(c, row);
  }

  /** A document of one row, and an attempt for another client that the raw checks let through. */
  lemma MergeSecond(w: Rules, c: Campaign, row: Row, b: Attempt)
    requires RulesOk(w) && CampaignOk(w, c) && SchemeOf(w, c).ok(row) && Verified(w, c, b).Some?
             && b.client != row.client
    requires !Reuses(row, Verified(w, c, b).value)
    ensures var p := Document(w, c, [row]);
            && ValidExisting(w, p, c.header, c.trusted) && Merge(w, c, Some(p), b).Some?
            && Start(w, c, Some(p), b.supersede) == Some([row])
  {
    OneRow(w, c, row);
    DocumentValid(w, c, [row]);
    StartOf(w, c, [row], b.supersede);
    SecondAdds(w, c, row, b);
    MergeGoesOn(w, c, Document(w, c, [row]), [row], b);
  }

  lemma SecondAdds(w: Rules, c: Campaign, row: Row, b: Attempt)
    requires Verified(w, c, b).Some? && b.client != row.client && !Reuses(row, Verified(w, c, b).value)
    ensures Add(SchemeOf(w, c), [row], b).Some?
  {
    AddSecond(SchemeOf(w, c), row, b);
  }

  lemma MergeGoesOn(w: Rules, c: Campaign, p: Progress, rows: seq<Row>, b: Attempt)
    requires Start(w, c, Some(p), b.supersede) == Some(rows) && Add(SchemeOf(w, c), rows, b).Some?
    ensures Merge(w, c, Some(p), b).Some?
  {
  }

  lemma PaddedFrom(w: Rules, c: Campaign, a: Attempt, b: Attempt) returns (row: Row)
    requires RulesOk(w) && CampaignOk(w, c) && Verified(w, c, a).Some? && Verified(w, c, b).Some?
             && a.client != b.client
    requires !Reuses(Verified(w, c, a).value, Verified(w, c, b).value)
    ensures SchemeOf(w, c).ok(row) && row.client == a.client
    ensures !Reuses(row, Verified(w, c, b).value) && !Unshared(row, Verified(w, c, b).value)
  {
    VerifiedRow(w, c, a);
    VerifiedRow(w, c, b);
    PaddedRow(w, c, Verified(w, c, a).value, Verified(w, c, b).value);
    row := Padded(Verified(w, c, a).value, Verified(w, c, b).value);
  }

  /** The condition is needed: from any two receipts that can be admitted together, an accepted document
      arises by padding an execution id, into which `merge` admits the same id again, and writes a
      document that `validate_existing` refuses. */
  lemma PaddedKeySlipsThrough(w: Rules, c: Campaign, a: Attempt, b: Attempt) returns (p: Progress)
    requires RulesOk(w) && CampaignOk(w, c) && Verified(w, c, a).Some? && Verified(w, c, b).Some?
             && a.client != b.client
    requires !Reuses(Verified(w, c, a).value, Verified(w, c, b).value)
    ensures ValidExisting(w, p, c.header, c.trusted)
    ensures Merge(w, c, Some(p), b).Some?
    ensures !ValidExisting(w, Merge(w, c, Some(p), b).value, c.header, c.trusted)
  {
    var row := PaddedFrom(w, c, a, b);
    p := Document(w, c, [row]);
    MergeSecond(w, c, row, b);
    OneById(row);
    SharedWithOne(row, Verified(w, c, b).value);
    MergeValidIff(w, c, Some(p), b);
  }

  lemma SharedWithOne(e: Row, row: Row)
    requires !Unshared(e, row)
    ensures var m := map[e.client := e]; !(forall k | k in m :: Unshared(m[k], row))
  {
    var m := map[e.client := e];
    assert e.client in m && m[e.client] == e;
  }

  lemma AddInWindow(w: Rules, c: Campaign, rows: seq<Row>, a: Attempt)
    requires RulesOk(w) && CampaignOk(w, c) && RowsValid(SchemeOf(w, c), rows) && Add(SchemeOf(w, c), rows, a).Some?
    ensures var out := Add(SchemeOf(w, c), rows, a).value;
            out != [] && forall i | 0 <= i < |out| :: InWindow(c, out[i])
  {
    SchemeLaws(w, c);
    AddRowsGood(SchemeOf(w, c), rows, a);
  }

  // ---- runs ---------------------------------------------------------------------------------

  /** The document after a run of calls in one campaign; a call that raises writes nothing. */
  function Run(w: Rules, c: Campaign, attempts: seq<Attempt>): Option<Progress> {
    if attempts == [] then None
    else After(w, c, Run(w, c, attempts[..|attempts| - 1]), attempts[|attempts| - 1])
  }

  function DocumentOf(w: Rules, c: Campaign, rows: seq<Row>): Option<Progress> {
    if rows == [] then None else Some(Document(w, c, rows))
  }

  lemma MergeRows(w: Rules, c: Campaign, rows: seq<Row>, a: Attempt)
    requires RulesOk(w) && CampaignOk(w, c) && RowsValid(SchemeOf(w, c), rows)
    ensures var out := Add(SchemeOf(w, c), rows, a);
            Merge(w, c, DocumentOf(w, c, rows), a) == if out.Some? then DocumentOf(w, c, out.value) else None
  {
    if rows != [] { StartOf(w, c, rows, a.supersede); }
    if Add(SchemeOf(w, c), rows, a).Some? { AddInWindow(w, c, rows, a); }
  }

  lemma RowsKept(w: Rules, c: Campaign, attempts: seq<Attempt>)
    requires RulesOk(w) && CampaignOk(w, c) && CollisionFree(w, attempts)
    ensures RowsValid(SchemeOf(w, c), Rows(SchemeOf(w, c), attempts))
  {
    SchemeLaws(w, c);
    SchemeExact(w, c, attempts);
    RunKeeps(SchemeOf(w, c), attempts);
  }

  /** One call: the new document, or the old one when it raises. */
  function After(w: Rules, c: Campaign, p: Option<Progress>, a: Attempt): Option<Progress> {
    var q := Merge(w, c, p, a);
    if q.Some? then q else p
  }

  lemma AfterRows(w: Rules, c: Campaign, rows: seq<Row>, a: Attempt)
    requires RulesOk(w) && CampaignOk(w, c) && RowsValid(SchemeOf(w, c), rows)
    ensures var out := Add(SchemeOf(w, c), rows, a);
            After(w, c, DocumentOf(w, c, rows), a) == DocumentOf(w, c, if out.Some? then out.value else rows)
  {
    MergeRows(w, c, rows, a);
    if Add(SchemeOf(w, c), rows, a).Some? { AddInWindow(w, c, rows, a); }
  }

  /** Runs of `merge` on documents are runs on rows. */
  lemma {:induction false} RunIs(w: Rules, c: Campaign, attempts: seq<Attempt>)
    requires RulesOk(w) && CampaignOk(w, c) && CollisionFree(w, attempts)
    ensures Run(w, c, attempts) == DocumentOf(w, c, Rows(SchemeOf(w, c), attempts))
  {
    if attempts == [] {
    } else {
      var s, before, a := SchemeOf(w, c), attempts[..|attempts| - 1], attempts[|attempts| - 1];
      FewerCollide(w, before, attempts);
      RunIs(w, c, before);
      RowsKept(w, c, before);
      AfterRows(w, c, Rows(s, before), a);
    }
  }

  /** Every document that any run of merge calls reaches, failing calls included, passes
      `validate_existing`. */
  lemma ReachableIsValid(w: Rules, c: Campaign, attempts: seq<Attempt>)
    requires RulesOk(w) && CampaignOk(w, c) && CollisionFree(w, attempts)
    ensures var p := Run(w, c, attempts);
            p.Some? ==> ValidExisting(w, p.value, c.header, c.trusted)
  {
    var s := SchemeOf(w, c);
    RunIs(w, c, attempts);
    RowsKept(w, c, attempts);
    DocumentValid(w, c, Rows(s, attempts));
  }

  // ---- confluence ---------------------------------------------------------------------------

  /** Every call of the run succeeds. */
  predicate AllAdmit(w: Rules, c: Campaign, attempts: seq<Attempt>) {
    attempts == [] ||
    (var n := |attempts| - 1;
     AllAdmit(w, c, attempts[..n]) && Merge(w, c, Run(w, c, attempts[..n]), attempts[n]).Some?)
  }

  lemma {:induction false} AllAdmitIs(w: Rules, c: Campaign, attempts: seq<Attempt>)
    requires RulesOk(w) && CampaignOk(w, c) && CollisionFree(w, attempts)
    ensures AllAdmit(w, c, attempts) <==> AllAdmitted(SchemeOf(w, c), attempts)
  {
    if attempts == [] {
    } else {
      var s, before, a := SchemeOf(w, c), attempts[..|attempts| - 1], attempts[|attempts| - 1];
      FewerCollide(w, before, attempts);
      AllAdmitIs(w, c, before);
      RunIs(w, c, before);
      RowsKept(w, c, before);
      MergeRows(w, c, Rows(s, before), a);
      if Add(s, Rows(s, before), a).Some? { AddInWindow(w, c, Rows(s, before), a); }
    }
  }

  /** The same receipt file for the same client with the same audit export, at whatever time. */
  predicate SameReceipt(a: Attempt, b: Attempt) {
    a.file == b.file && a.client == b.client && a.audit == b.audit
  }

  /** The clock decides only whether a receipt verifies, not what it yields. */
  lemma ClockImmaterial(w: Rules, c: Campaign, a: Attempt, b: Attempt)
    requires SameReceipt(a, b) && Verified(w, c, a).Some? && Verified(w, c, b).Some?
    ensures Verified(w, c, a) == Verified(w, c, b)
  {
  }

  ghost predicate Covers(one: seq<Attempt>, other: seq<Attempt>) {
    forall b | Of(b, other) :: exists a :: a in one && SameReceipt(a, b)
  }

  lemma CoversMatches(w: Rules, c: Campaign, one: seq<Attempt>, other: seq<Attempt>)
    requires Covers(one, other)
    requires (forall a | a in one :: Verified(w, c, a).Some?) && (forall b | b in other :: Verified(w, c, b).Some?)
    ensures Matched(SchemeOf(w, c), one, other)
  {
    var s := SchemeOf(w, c);
    forall b | Of(b, other) ensures exists a :: a in one && a.client == b.client && s.verified(a) == s.verified(b) {
      var a :| a in one && SameReceipt(a, b);
      ClockImmaterial(w, c, a, b);
      assert s.verified(a) == s.verified(b);
    }
  }

  lemma CoversCollides(w: Rules, one: seq<Attempt>, other: seq<Attempt>)
    requires CollisionFree(w, one) && Covers(one, other)
    ensures CollisionFree(w, other)
  {
    forall b, d | b in other && d in other && w.hash(b.file) == w.hash(d.file) ensures b.file == d.file {
      assert Of(b, other) && Of(d, other);
      var a :| a in one && SameReceipt(a, b);
      var e :| e in one && SameReceipt(e, d);
    }
  }

  lemma AdmittedVerifies(w: Rules, c: Campaign, attempts: seq<Attempt>)
    requires RulesOk(w) && CampaignOk(w, c) && CollisionFree(w, attempts) && AllAdmit(w, c, attempts)
    ensures forall a | a in attempts :: Verified(w, c, a).Some?
  {
    var s := SchemeOf(w, c);
    SchemeLaws(w, c);
    SchemeExact(w, c, attempts);
    AllAdmitIs(w, c, attempts);
    AllAdmittedIff(s, attempts);
    forall a | a in attempts ensures Verified(w, c, a).Some? { assert Agree(s, a, a); }
  }

  /** Confluence: if some attempts are admitted one after another, so are the same receipts in every other
      order, repetitions included, at all times at which they verify, and both end in the same document. */
  lemma ConfluentAtAnyTime(w: Rules, c: Campaign, one: seq<Attempt>, other: seq<Attempt>)
    requires RulesOk(w) && CampaignOk(w, c) && CollisionFree(w, one) && AllAdmit(w, c, one)
    requires Covers(one, other) && Covers(other, one) && forall b | b in other :: Verified(w, c, b).Some?
    ensures AllAdmit(w, c, other) && Run(w, c, other) == Run(w, c, one)
  {
    AdmittedVerifies(w, c, one);
    CoversCollides(w, one, other);
    CoversMatches(w, c, one, other);
    CoversMatches(w, c, other, one);
    SchemeLaws(w, c);
    SchemeExact(w, c, one);
    AllAdmitIs(w, c, one);
    AllAdmitIs(w, c, other);
    RunIs(w, c, one);
    RunIs(w, c, other);
    OrderImmaterial(SchemeOf(w, c), one, other);
  }

  /** In particular every order of the same attempts. */
  lemma Confluent(w: Rules, c: Campaign, one: seq<Attempt>, other: seq<Attempt>)
    requires RulesOk(w) && CampaignOk(w, c) && CollisionFree(w, one)
    requires AllAdmit(w, c, one) && forall a :: a in one <==> a in other
    ensures AllAdmit(w, c, other) && Run(w, c, other) == Run(w, c, one)
  {
    AdmittedVerifies(w, c, one);
    assert forall a :: SameReceipt(a, a);
    ConfluentAtAnyTime(w, c, one, other);
  }

  // ---- absorption ---------------------------------------------------------------------------

  /** A successful merge of an already admitted client returns the document as it is. */
  lemma ReplayChangesNothing(w: Rules, c: Campaign, p: Progress, a: Attempt)
    requires RulesOk(w) && CampaignOk(w, c) && Merge(w, c, Some(p), a).Some?
    requires p.header == c.header && a.client in ById(p.clients)
    ensures Merge(w, c, Some(p), a) == Some(p)
  {
    SchemeLaws(w, c);
    StartRows(w, c, Some(p), a.supersede);
    AddValidIff(SchemeOf(w, c), p.clients, a);
  }

  /** A complete document is a fixed point: whatever campaign, receipt and switch, a merge either
      refuses it or returns it unchanged. */
  lemma CompleteIsFixed(w: Rules, c: Campaign, p: Progress, a: Attempt)
    requires RulesOk(w) && CampaignOk(w, c) && p.complete
    ensures Merge(w, c, Some(p), a) in {None, Some(p)}
    ensures p.header != c.header ==> Merge(w, c, Some(p), a) == None
  {
    if Merge(w, c, Some(p), a).Some? {
      StartRows(w, c, Some(p), a.supersede);
      SchemeLaws(w, c);
      FullListsAll(w.clients, p.clients);
      ByIdHolds(p.clients);
      var i := Pos(w.clients, a.client);
      assert i >= 0;
      assert p.clients[i].client == a.client;
      ReplayChangesNothing(w, c, p, a);
    }
  }

  /** The completion flag of a valid document is on exactly when the rows are those of the clients, in
      canonical order: what `final_evidence` demands. */
  lemma CompleteIffAllClients(w: Rules, p: Progress)
    requires RulesOk(w) && ValidExisting(w, p, p.header, p.trusted)
    ensures p.complete
            <==> |p.clients| == |w.clients| && forall i | 0 <= i < |w.clients| :: p.clients[i].client == w.clients[i]
  {
    FullListsAll(w.clients, p.clients);
  }
}

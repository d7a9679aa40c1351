/** When a merge succeeds and what it then writes, said of the document and the receipt alone. */
module AdmissionOutcomes {
  import opened Collections
  import opened Admission
  import opened AdmissionRows
  import opened AdmissionOrders
  import opened AdmissionSafety

  /** The row can join the rows: it is the client's own row again, or the client has none and no row shares
      an execution, evidence, provider reference or request id with it. */
  ghost predicate Joins(rows: seq<Row>, row: Row) {
    || row in rows
    || forall e | e in rows :: e.client != row.client && !Reuses(e, row)
  }

  /** The rows and this one, in the order of the clients. */
  ghost predicate WithRow(clients: seq<string>, rows: seq<Row>, row: Row, out: seq<Row>) {
    Ordered(clients, out) && forall r :: r in out <==> r in rows || r == row
  }

  lemma OwnRow(clients: seq<string>, rows: seq<Row>, row: Row)
    requires Ordered(clients, rows)
    ensures row in rows <==> row.client in ById(rows) && ById(rows)[row.client] == row
  {
    ByIdHolds(rows);
    if row in rows {
      var i :| 0 <= i < |rows| && rows[i] == row;
      ByIdAt(clients, rows, i);
    }
  }

  lemma JoinsIffCompatible(s: Scheme, rows: seq<Row>, row: Row)
    requires s.reuses == Reuses && Ordered(s.clients, rows)
    ensures Joins(rows, row) <==> Compatible(s, ById(rows), row)
  {
    var m := ById(rows);
    OwnRow(s.clients, rows, row);
    ByIdHolds(rows);
    if row.client !in m {
      forall e | e in rows ensures e.client in m && m[e.client] == e { OwnRow(s.clients, rows, e); }
    } else {
      assert m[row.client] in rows;
    }
  }

  lemma CanonWithRow(clients: seq<string>, rows: seq<Row>, row: Row)
    requires Distinct(clients) && Ordered(clients, rows) && row.client in clients
    requires row.client in ById(rows) ==> ById(rows)[row.client] == row
    ensures WithRow(clients, rows, row, Canon(clients, ById(rows)[row.client := row]))
  {
    var m := ById(rows);
    var m' := m[row.client := row];
    ByIdOf(clients, rows);
    CanonOrdered(clients, m');
    forall r ensures r in Canon(clients, m') <==> r in rows || r == row {
      CanonMember(clients, m', r);
      CanonMember(clients, m, r);
    }
  }

  /** One merge into the rows of a campaign: it succeeds exactly when the receipt and its audit verify and
      the row joins, and the result is the rows with it. */
  lemma AddExactly(w: Rules, c: Campaign, rows: seq<Row>, a: Attempt)
    requires RulesOk(w) && CampaignOk(w, c) && Ordered(w.clients, rows)
    ensures var out := Add(SchemeOf(w, c), rows, a);
            && (out.Some? <==> Verified(w, c, a).Some? && Joins(rows, Verified(w, c, a).value))
            && (out.Some? ==> WithRow(w.clients, rows, Verified(w, c, a).value, out.value))
  {
    var s := SchemeOf(w, c);
    SchemeLaws(w, c);
    AddIff(s, rows, a);
    if s.verified(a).Some? { JoinsIffCompatible(s, rows, s.verified(a).value); }
    if Add(s, rows, a).Some? {
      AddShape(s, rows, a);
      CanonWithRow(w.clients, rows, s.verified(a).value);
    }
  }

  lemma MergeIs(w: Rules, c: Campaign, existing: Option<Progress>, a: Attempt)
    ensures var rows := Start(w, c, existing, a.supersede);
            Merge(w, c, existing, a)
            == if rows.None? || Add(SchemeOf(w, c), rows.value, a).None? then None
               else Some(Document(w, c, Add(SchemeOf(w, c), rows.value, a).value))
  {
  }

  /** Into no document: the receipt alone decides, and its row is the document. */
  lemma FirstMerge(w: Rules, c: Campaign, a: Attempt)
    requires RulesOk(w) && CampaignOk(w, c)
    ensures Merge(w, c, None, a)
            == if Verified(w, c, a).Some? then Some(Document(w, c, [Verified(w, c, a).value])) else None
  {
    AddExactly(w, c, [], a);
    SchemeLaws(w, c);
    MergeIs(w, c, None, a);
    if Add(SchemeOf(w, c), [], a).Some? { AddFirst(SchemeOf(w, c), a); }
  }

  lemma StartOther(w: Rules, c: Campaign, p: Progress, supersede: bool)
    requires RulesOk(w) && p.header != c.header
    ensures Start(w, c, Some(p), supersede)
            == if supersede && ValidExisting(w, p, p.header, p.trusted) && !p.complete then Some([]) else None
  {
    if ValidExisting(w, p, p.header, p.trusted) { FullListsAll(w.clients, p.clients); }
  }

  lemma StartSame(w: Rules, c: Campaign, p: Progress, supersede: bool)
    requires p.header == c.header
    ensures Start(w, c, Some(p), supersede).Some?
            <==> && ValidExisting(w, p, c.header, c.trusted)
                 && forall i | 0 <= i < |p.clients| :: InWindow(c, p.clients[i])
    ensures Start(w, c, Some(p), supersede).Some?
            ==> Start(w, c, Some(p), supersede) == Some(p.clients) && Ordered(w.clients, p.clients)
  {
  }

  /** Into a document of another campaign: exactly with the switch on, over a valid unfinished document,
      however many rows it has; those rows are given up and the document holds the new row alone. */
  lemma SupersedeStartsAfresh(w: Rules, c: Campaign, p: Progress, a: Attempt)
    requires RulesOk(w) && CampaignOk(w, c) && p.header != c.header
    ensures Merge(w, c, Some(p), a)
            == if a.supersede && ValidExisting(w, p, p.header, p.trusted) && !p.complete && Verified(w, c, a).Some?
               then Some(Document(w, c, [Verified(w, c, a).value])) else None
  {
    StartOther(w, c, p, a.supersede);
    FirstMerge(w, c, a);
    MergeIs(w, c, Some(p), a);
    MergeIs(w, c, None, a);
  }

  /** Into a document of the same campaign: exactly when the document is accepted, all its rows lie in the
      campaign's window, the receipt verifies and its row joins; the result has the old rows and that one. */
  lemma SameCampaignMerge(w: Rules, c: Campaign, p: Progress, a: Attempt)
    requires RulesOk(w) && CampaignOk(w, c) && p.header == c.header
    ensures Merge(w, c, Some(p), a).Some?
            <==> && ValidExisting(w, p, c.header, c.trusted)
                 && (forall i | 0 <= i < |p.clients| :: InWindow(c, p.clients[i]))
                 && Verified(w, c, a).Some? && Joins(p.clients, Verified(w, c, a).value)
    ensures Merge(w, c, Some(p), a).Some?
            ==> var out := Merge(w, c, Some(p), a).value;
                && out == Document(w, c, out.clients)
                && WithRow(w.clients, p.clients, Verified(w, c, a).value, out.clients)
  {
    StartSame(w, c, p, a.supersede);
    MergeIs(w, c, Some(p), a);
    if Start(w, c, Some(p), a.supersede).Some? { AddExactly(w, c, p.clients, a); }
  }
}

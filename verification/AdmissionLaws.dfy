/** What an accepted document certifies: rows that the campaign and the receipts determine, identities and
    request ids that are nowhere shared, and for every reachable document the receipts it rests on. */
module AdmissionLaws {
  import opened Collections
  import opened Text
  import opened Admission
  import opened AdmissionRows
  import opened AdmissionOrders
  import opened AdmissionSafety
  import Pins = ImagePins

  // ---- a row is determined ------------------------------------------------------------------

  /** The row as `validate_existing` reads it: white space around what it strips is immaterial. */
  function Read(row: Row): Row {
    row.(executionId := PythonStrip(row.executionId), providerRef := PythonStrip(row.providerRef),
         oauth := PythonStrip(row.oauth), requestIds := Stripped(row.requestIds),
         seen := row.seen.(oauth := PythonStrip(row.seen.oauth), events := Stripped(row.seen.events)))
  }

  /** The two rows report the same execution: same ids, time and digests, and the same audit export. */
  predicate SameExecution(a: Row, b: Row) {
    && a.client == b.client && a.executed == b.executed
    && PythonStrip(a.executionId) == PythonStrip(b.executionId)
    && PythonStrip(a.providerRef) == PythonStrip(b.providerRef)
    && a.challenge == b.challenge && a.evidence == b.evidence && a.receiptSha == b.receiptSha
    && Stripped(a.requestIds) == Stripped(b.requestIds) && a.seen.file == b.seen.file
  }

  lemma AllTrue(w: Rules, a: map<string, bool>, b: map<string, bool>)
    requires ChecksOk(w, a) && ChecksOk(w, b)
    ensures a == b
  {
    assert a.Keys == b.Keys;
  }

  /** Beyond the execution it reports, nothing in an accepted row is free: two rows that a campaign accepts
      for the same execution are read as the same row. */
  lemma RowIsDetermined(w: Rules, c: Campaign, a: Row, b: Row)
    requires RowOk(w, c.header, c.trusted, a) && InWindow(c, a)
    requires RowOk(w, c.header, c.trusted, b) && InWindow(c, b)
    requires SameExecution(a, b)
    ensures Read(a) == Read(b)
  {
    AllTrue(w, a.checks, b.checks);
  }

  // ---- nothing is shared --------------------------------------------------------------------

  function Union(sets: seq<set<string>>): set<string> {
    if sets == [] then {} else Union(sets[..|sets| - 1]) + sets[|sets| - 1]
  }

  lemma {:induction false} UnionApart(sets: seq<set<string>>, other: set<string>)
    requires forall i | 0 <= i < |sets| :: sets[i] !! other
    ensures Union(sets) !! other
  {
    if sets == [] {
    } else {
      UnionApart(sets[..|sets| - 1], other);
    }
  }

  lemma OneMoreSet(before: set<string>, more: set<string>, n: nat, k: nat)
    requires before !! more && |before| == n * k && |more| == k
    ensures |before + more| == (n + 1) * k
  {
  }

  /** Disjoint sets of one size together have that size times their number. */
  lemma {:induction false} UnionCounted(sets: seq<set<string>>, k: nat)
    requires forall i | 0 <= i < |sets| :: |sets[i]| == k
    requires forall i, j | 0 <= i < j < |sets| :: sets[i] !! sets[j]
    ensures |Union(sets)| == |sets| * k
  {
    if sets == [] {
    } else {
      var n := |sets| - 1;
      UnionCounted(sets[..n], k);
      UnionApart(sets[..n], sets[n]);
      OneMoreSet(Union(sets[..n]), sets[n], n, k);
    }
  }

  /** All request ids of some rows, as they are read. */
  function RequestIdsOf(rows: seq<Row>): set<string> {
    Union(seq(|rows|, i requires 0 <= i < |rows| => Ids(rows[i])))
  }

  lemma {:induction false} ImageSize(ids: map<string, string>, keys: set<string>)
    requires keys <= ids.Keys
    requires forall a, b | a in ids && b in ids && a != b :: PythonStrip(ids[a]) != PythonStrip(ids[b])
    ensures |set k | k in keys :: PythonStrip(ids[k])| == |keys|
    decreases keys
  {
    var all := set k | k in keys :: PythonStrip(ids[k]);
    if keys == {} {
    } else {
      var k :| k in keys;
      var rest := keys - {k};
      ImageSize(ids, rest);
      assert all == (set j | j in rest :: PythonStrip(ids[j])) + {PythonStrip(ids[k])};
    }
  }

  lemma IdsSize(w: Rules, row: Row)
    requires RequestIdsOk(w, row.requestIds)
    ensures |Ids(row)| == |w.audited|
  {
    ImageSize(row.requestIds, row.requestIds.Keys);
    assert Ids(row) == set k | k in row.requestIds.Keys :: PythonStrip(row.requestIds[k]);
  }

  /** An accepted document holds, for every row and every audited check, a request id of its own. */
  lemma RequestIdsAreOwn(w: Rules, p: Progress)
    requires ValidExisting(w, p, p.header, p.trusted)
    ensures |RequestIdsOf(p.clients)| == |p.clients| * |w.audited|
  {
    var rows := p.clients;
    var sets := seq(|rows|, i requires 0 <= i < |rows| => Ids(rows[i]));
    forall i | 0 <= i < |sets| ensures |sets[i]| == |w.audited| {
      assert RowOk(w, p.header, p.trusted, rows[i]);
      IdsSize(w, rows[i]);
    }
    forall i, j | 0 <= i < j < |sets| ensures sets[i] !! sets[j] { assert Apart(rows[i], rows[j]); }
    UnionCounted(sets, |w.audited|);
  }

  /** No two rows of an accepted document are of the same client, OAuth client or trusted client. */
  lemma IdentitiesAreOwn(w: Rules, p: Progress, i: nat, j: nat)
    requires ValidExisting(w, p, p.header, p.trusted) && i < j < |p.clients|
    ensures var a, b := p.clients[i], p.clients[j];
            a.client != b.client && PythonStrip(a.oauth) != PythonStrip(b.oauth) && a.trusted != b.trusted
  {
    var a, b := p.clients[i], p.clients[j];
    assert RowOk(w, p.header, p.trusted, a) && RowOk(w, p.header, p.trusted, b);
    OrderedApart(w.clients, p.clients);
    assert PythonStrip(p.header.oauth[a.client]) != PythonStrip(p.header.oauth[b.client]);
    assert PythonStrip(p.trusted[a.client]) != PythonStrip(p.trusted[b.client]);
  }

  // ---- what a reachable document rests on ---------------------------------------------------

  /** The attempt brought a receipt for this client of this campaign, issued, observed and live in time,
      of an external credentialed execution without violations. */
  predicate Brought(w: Rules, c: Campaign, a: Attempt, client: string) {
    && a.client == client && a.audit.Some? && w.parse(a.file).Some?
    && var r := w.parse(a.file).value;
       && r.authority == "MCP_EXTERNAL_CLIENT_EXECUTION_RECEIPT_V1" && r.client == client
       && r.protocol == c.header.protocol && r.transport == "streamable-http" && r.campaignId == c.header.campaignId
       && client in c.header.oauth && PythonStrip(r.oauth) == c.header.oauth[client]
       && r.externalExecution && r.credentialed && !r.violations
       && c.created <= r.executed <= c.expires && r.executed <= a.now + 300
       && c.created <= a.now + 300 && a.now < c.expires
  }

  /** The row is the receipt's own account. */
  predicate Accounts(w: Rules, a: Attempt, row: Row) {
    && w.parse(a.file).Some? && row.receiptSha == w.hash(a.file) && a.audit == Some(row.seen.file)
    && var r := w.parse(a.file).value;
       && row.endpoint == r.endpoint && row.evidence == r.evidence && row.executed == r.executed
       && row.executionId == PythonStrip(r.executionId) && row.providerRef == PythonStrip(r.providerRef)
       && row.requestIds == Stripped(r.requestIds) && row.challenge == r.challenge && row.execution == r.execution
  }

  lemma VerifiedBrings(w: Rules, c: Campaign, a: Attempt)
    requires Verified(w, c, a).Some?
    ensures Brought(w, c, a, a.client) && Accounts(w, a, Verified(w, c, a).value)
  {
  }

  /** The row the receipt of an attempt would give. */
  function Candidate(w: Rules, c: Campaign, a: Attempt): Option<Row> {
    if w.parse(a.file).None? || a.audit.None? || a.client !in c.header.oauth || a.client !in c.trusted then None
    else
      var row := RowOf(w, c, w.parse(a.file).value, a);
      Some(row.(seen := WitnessFor(row, a.audit.value)))
  }

  lemma UnstrippedIds(w: Rules, ids: map<string, string>)
    ensures RequestIdsOk(w, Stripped(ids)) <==> RequestIdsOk(w, ids)
  {
    var s := Stripped(ids);
    assert s.Keys == ids.Keys;
    forall k | k in ids ensures PythonStrip(s[k]) == PythonStrip(ids[k]) { StripTwice(ids[k]); }
  }

  /** A receipt verifies exactly when an attempt brought it, it answers the campaign's challenge to the client,
      and the row it gives is one that `validate_existing` and the campaign's window accept. */
  lemma VerifiesIff(w: Rules, c: Campaign, a: Attempt)
    requires RulesOk(w) && CampaignOk(w, c)
    ensures Verified(w, c, a).Some?
            <==> && Candidate(w, c, a).Some? && Brought(w, c, a, a.client)
                 && var row := Candidate(w, c, a).value;
                    && a.client in c.challenges && row.challenge == c.challenges[a.client]
                    && RowOk(w, c.header, c.trusted, row) && InWindow(c, row)
    ensures Verified(w, c, a).Some? ==> Verified(w, c, a) == Candidate(w, c, a)
  {
    if Candidate(w, c, a).Some? {
      var r, row := w.parse(a.file).value, Candidate(w, c, a).value;
      UnstrippedIds(w, r.requestIds);
      StripTwice(r.executionId);
      StripTwice(r.providerRef);
      if Verified(w, c, a).Some? { VerifiedRow(w, c, a); }
    }
  }

  /** Every row of every document that runs of merge calls reach, failing calls included, was brought by one
      of the attempts. */
  lemma RowsAreBrought(w: Rules, c: Campaign, attempts: seq<Attempt>, row: Row)
    requires RulesOk(w) && CampaignOk(w, c) && CollisionFree(w, attempts)
    requires Run(w, c, attempts).Some? && row in Run(w, c, attempts).value.clients
    ensures exists a | a in attempts :: Brought(w, c, a, row.client) && Accounts(w, a, row)
  {
    var s := SchemeOf(w, c);
    var rows := Rows(s, attempts);
    RunIs(w, c, attempts);
    SchemeLaws(w, c);
    SchemeExact(w, c, attempts);
    RunKeeps(s, attempts);
    var i :| 0 <= i < |rows| && rows[i] == row;
    ByIdAt(s.clients, rows, i);
    var a :| a in attempts && a.client == row.client && s.verified(a) == Some(ById(rows)[row.client]);
    VerifiedBrings(w, c, a);
  }

  // ---- the formats --------------------------------------------------------------------------

  /** An accepted document is of the one protocol, names its campaign and every client's bindings, and is
      tied to three digests. */
  lemma AcceptedHeader(w: Rules, p: Progress)
    requires ValidExisting(w, p, p.header, p.trusted)
    ensures var h := p.header;
            && h.protocol == "2026-07-28" && h.transport == "streamable-http" && "mcp-interop-" <= h.campaignId
            && Pins.IsDigest(h.matrixSha) && Pins.IsDigest(h.campaignSha) && Pins.IsDigest(h.oauthSha)
            && forall k :: (k in h.oauth <==> k in w.clients) && (k in p.trusted <==> k in w.clients)
  {
    assert forall k :: k in SetOf(w.clients) <==> k in w.clients;
  }

  /** The bounds of the texts and times of a row. */
  lemma FormatsIff(row: Row)
    ensures TimesOk(row) <==> row.created <= row.executed <= row.expires && 60 <= row.window <= 86400
    ensures ExecutionIdOk(row.executionId) <==> 1 <= |row.executionId| <= 160
    ensures ProviderRefOk(row.providerRef)
            <==> 8 <= |row.providerRef| <= 500 && forall x | x in row.providerRef :: '!' <= x <= '~'
  {
  }

  /** The times and the texts of an accepted row lie within the source's bounds. */
  lemma AcceptedRow(w: Rules, p: Progress, i: nat)
    requires ValidExisting(w, p, p.header, p.trusted) && i < |p.clients|
    ensures var row := p.clients[i];
            && row.endpoint == p.header.endpoint
            && row.created <= row.executed <= row.expires && 60 <= row.window <= 86400
            && 1 <= |PythonStrip(row.executionId)| <= 160
            && 8 <= |PythonStrip(row.providerRef)| <= 500
            && (forall x | x in PythonStrip(row.providerRef) :: '!' <= x <= '~')
            && Pins.IsDigest(row.evidence) && Pins.IsDigest(row.receiptSha) && Pins.IsDigest(row.challenge)
            && (forall k | k in row.requestIds ::
                  8 <= |PythonStrip(row.requestIds[k])| <= 200
                  && forall x | x in PythonStrip(row.requestIds[k]) ::
                       x in ".:_-" || '0' <= x <= '9' || 'A' <= x <= 'Z' || 'a' <= x <= 'z')
  {
    assert RowOk(w, p.header, p.trusted, p.clients[i]);
  }
}

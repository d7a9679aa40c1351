/** Incremental admission of client receipts into one progress document
    (scripts/admit_mcp_external_receipt.py), with receipt verification and campaign verification
    (scripts/seal_mcp_external_interop.py) as the functions whose results it relies on. */
module Admission {
  import opened Collections
  import opened Text
  import Pins = ImagePins

  /** What identifies a campaign: the fields `merge` compares before it trusts a progress document. */
  datatype Header = Header(matrixSha: string, campaignId: string, campaignSha: string, oauthSha: string,
                           oauth: map<string, string>, source: string, runtime: string,
                           protocol: string, transport: string, endpoint: string)

  datatype Campaign = Campaign(header: Header, trusted: map<string, string>, challenges: map<string, string>,
                               execution: string, created: int, expires: int, window: int)

  /** A server audit witness; `export` stands for the part that depends on the audit file alone. */
  datatype Witness = Witness(client: string, binding: string, oauth: string, observed: int, window: int,
                             events: map<string, string>, file: string)

  datatype Row = Row(client: string, surface: string, endpoint: string, source: string, runtime: string,
                     executionId: string, providerRef: string, executed: int, campaignId: string, challenge: string,
                     oauth: string, trusted: string, binding: string, execution: string, evidence: string,
                     receiptSha: string, checks: map<string, bool>, requestIds: map<string, string>,
                     created: int, expires: int, window: int, seen: Witness)

  datatype Receipt = Receipt(authority: string, client: string, surface: string, protocol: string, transport: string,
                             campaignId: string, challenge: string, source: string, runtime: string, oauth: string,
                             binding: string, endpoint: string, executionId: string, executed: int, providerRef: string,
                             externalExecution: bool, credentialed: bool, checks: map<string, bool>, violations: bool,
                             evidence: string, requestIds: map<string, string>, execution: string)

  datatype Progress = Progress(header: Header, trusted: map<string, string>, clients: seq<Row>, count: int,
                               complete: bool, allPass: bool, witnessPass: bool, certificationPass: bool,
                               runtimeCertified: bool, physicalCertified: bool)

  /** The fixed tables, and what is computed elsewhere: the file digest, the JSON decoding of a
      receipt file and the digest that binds a client to a campaign. */
  datatype Rules = Rules(clients: seq<string>, surfaces: map<string, string>,
                         audited: set<string>, required: set<string>,
                         hash: string -> string, parse: string -> Option<Receipt>,
                         bind: (string, string, string) -> string)

  const CLIENTS := ["chatgpt", "claude", "gemini", "grok"]

  const SURFACES := map["chatgpt" := "ChatGPT custom MCP", "claude" := "Claude remote MCP",
                        "gemini" := "Gemini remote MCP", "grok" := "Grok custom MCP"]

  const AUDITED_CHECKS := [
    "dedicated-audience-validation", "authorization-filtered-tools-list",
    "project-resource-scope-negative-control", "revoked-delegation-negative-control",
    "read-only-client-mutation-negative-control", "administration-approval-self-approval-negative-control"]

  const REQUIRED_CHECKS := ["oauth-protected-resource-discovery"] + AUDITED_CHECKS

  function SetOf(names: seq<string>): set<string> { set name | name in names }

  ghost predicate RulesOk(w: Rules) {
    && Distinct(w.clients) && |w.clients| > 0
    && (forall c | c in w.clients :: c in w.surfaces)
    && (forall text :: Pins.IsDigest(w.hash(text)))
  }

  // ---- the checks on one row ----------------------------------------------------------------

  predicate ExecutionIdOk(id: string) { id != "" && |id| <= 160 }

  predicate ProviderRefOk(ref: string) {
    8 <= |ref| <= 500 && forall c | c in ref :: '\U{21}' <= c <= '\U{7e}'
  }

  predicate RequestIdChar(c: char) {
    'A' <= c <= 'Z' || 'a' <= c <= 'z' || '0' <= c <= '9' || c == '.' || c == '_' || c == ':' || c == '-'
  }

  predicate RequestIdOk(id: string) {
    8 <= |id| <= 200 && forall c | c in id :: RequestIdChar(c)
  }

  function Stripped(ids: map<string, string>): map<string, string> {
    map check | check in ids :: PythonStrip(ids[check])
  }

  predicate RequestIdsOk(w: Rules, ids: map<string, string>) {
    && ids.Keys == w.audited
    && (forall check | check in ids :: RequestIdOk(PythonStrip(ids[check])))
    && (forall a, b | a in ids && b in ids && a != b :: PythonStrip(ids[a]) != PythonStrip(ids[b]))
  }

  predicate ChecksOk(w: Rules, checks: map<string, bool>) {
    checks.Keys == w.required && forall k | k in checks :: checks[k]
  }

  predicate TimesOk(row: Row) {
    row.created <= row.executed <= row.expires && 60 <= row.window <= 24 * 3600
  }

  predicate WitnessOk(row: Row) {
    && row.seen.client == row.client && row.seen.binding == row.binding
    && PythonStrip(row.seen.oauth) == PythonStrip(row.oauth)
    && row.seen.observed == row.executed && row.seen.window == row.window
    && Stripped(row.seen.events) == Stripped(row.requestIds)
  }

  predicate DigestsOk(row: Row) {
    Pins.IsDigest(row.evidence) && Pins.IsDigest(row.receiptSha) && Pins.IsDigest(row.challenge)
  }

  /** The loop body of `validate_existing` as far as it concerns one row. */
  predicate RowOk(w: Rules, h: Header, trusted: map<string, string>, row: Row) {
    && row.client in w.clients && row.client in w.surfaces && row.surface == w.surfaces[row.client]
    && row.source == h.source && row.runtime == h.runtime && row.endpoint == h.endpoint
    && row.client in h.oauth && PythonStrip(row.oauth) == h.oauth[row.client]
    && row.client in trusted && row.trusted == trusted[row.client]
    && ExecutionIdOk(PythonStrip(row.executionId)) && ProviderRefOk(PythonStrip(row.providerRef))
    && TimesOk(row) && ChecksOk(w, row.checks) && RequestIdsOk(w, row.requestIds) && DigestsOk(row)
    && row.campaignId == h.campaignId && row.binding == w.bind(h.campaignId, row.client, row.challenge)
    && WitnessOk(row)
  }

  /** The request ids of a row, as `validate_existing` reads them. */
  function Ids(row: Row): set<string> {
    set check | check in row.requestIds :: PythonStrip(row.requestIds[check])
  }

  /** Two rows share nothing that must be unique, and come from the same bound execution. */
  predicate Apart(a: Row, b: Row) {
    && PythonStrip(a.executionId) != PythonStrip(b.executionId)
    && PythonStrip(a.providerRef) != PythonStrip(b.providerRef)
    && a.evidence != b.evidence && a.receiptSha != b.receiptSha && a.challenge != b.challenge
    && Ids(a) !! Ids(b)
    && a.execution == b.execution
  }

  /** The position of a client in the canonical order, or -1. */
  function Pos(clients: seq<string>, c: string): (i: int)
    ensures -1 <= i < |clients|
    ensures i >= 0 ==> clients[i] == c
    ensures i < 0 <==> c !in clients
  {
    if clients == [] then -1
    else if clients[0] == c then 0
    else var i := Pos(clients[1..], c); if i < 0 then -1 else i + 1
  }

  predicate Ordered(clients: seq<string>, rows: seq<Row>) {
    && (forall i | 0 <= i < |rows| :: rows[i].client in clients)
    && (forall i, j | 0 <= i < j < |rows| :: Pos(clients, rows[i].client) < Pos(clients, rows[j].client))
  }

  /** No two clients are bound to the same identity. */
  predicate BoundApart(bindings: map<string, string>) {
    forall k, l | k in bindings && l in bindings && k != l :: PythonStrip(bindings[k]) != PythonStrip(bindings[l])
  }

  predicate HeaderOk(w: Rules, h: Header, trusted: map<string, string>) {
    && Pins.IsDigest(h.matrixSha) && Pins.IsDigest(h.campaignSha) && Pins.IsDigest(h.oauthSha)
    && "mcp-interop-" <= h.campaignId && h.protocol == "2026-07-28" && h.transport == "streamable-http"
    && h.oauth.Keys == trusted.Keys == SetOf(w.clients)
    && BoundApart(h.oauth) && BoundApart(trusted)
  }

  predicate FlagsOk(w: Rules, p: Progress) {
    && !p.runtimeCertified && !p.physicalCertified && p.allPass && p.count == |p.clients|
    && p.complete == p.certificationPass == p.witnessPass == (|p.clients| == |w.clients|)
  }

  predicate RowsOk(w: Rules, h: Header, trusted: map<string, string>, rows: seq<Row>) {
    && Ordered(w.clients, rows)
    && (forall i | 0 <= i < |rows| :: RowOk(w, h, trusted, rows[i]))
    && (forall i, j | 0 <= i < j < |rows| :: Apart(rows[i], rows[j]))
  }

  /** `validate_existing` accepts the progress for this campaign identity. */
  predicate ValidExisting(w: Rules, p: Progress, h: Header, trusted: map<string, string>) {
    && HeaderOk(w, p.header, p.trusted) && p.header == h && p.trusted == trusted
    && FlagsOk(w, p) && RowsOk(w, h, trusted, p.clients)
  }

  /** `by_id` */
  function ById(rows: seq<Row>): map<string, Row> {
    if rows == [] then map[] else ById(rows[..|rows| - 1])[rows[|rows| - 1].client := rows[|rows| - 1]]
  }

  /** `[by_id[name] for name in CLIENTS if name in by_id]` */
  function Canon(clients: seq<string>, m: map<string, Row>): seq<Row> {
    if clients == [] then []
    else (if clients[0] in m then [m[clients[0]]] else []) + Canon(clients[1..], m)
  }

  // ---- campaign and receipt verification ----------------------------------------------------

  /** What `verify_campaign` has established before any receipt is looked at. */
  predicate CampaignOk(w: Rules, c: Campaign) {
    && HeaderOk(w, c.header, c.trusted)
    && (forall k | k in w.clients :: k in c.challenges && Pins.IsDigest(c.challenges[k]))
    && (forall k, l | k in w.clients && l in w.clients && k != l :: c.challenges[k] != c.challenges[l])
    && c.created < c.expires && 60 <= c.window <= 24 * 3600
    && (forall k | k in w.clients :: PythonStrip(c.header.oauth[k]) == c.header.oauth[k])
  }

  predicate ReceiptOk(w: Rules, c: Campaign, r: Receipt, client: string, now: int)
    requires client in w.surfaces && client in c.challenges && client in c.header.oauth
  {
    && r.authority == "MCP_EXTERNAL_CLIENT_EXECUTION_RECEIPT_V1"
    && r.client == client && r.surface == w.surfaces[client]
    && r.protocol == c.header.protocol && r.transport == "streamable-http"
    && r.campaignId == c.header.campaignId && r.challenge == c.challenges[client]
    && r.source == c.header.source && r.runtime == c.header.runtime && r.endpoint == c.header.endpoint
    && PythonStrip(r.oauth) == c.header.oauth[client]
    && r.binding == w.bind(c.header.campaignId, client, r.challenge)
    && ExecutionIdOk(PythonStrip(r.executionId)) && ProviderRefOk(PythonStrip(r.providerRef))
    && c.created <= now + 300 && now < c.expires && c.created <= r.executed <= c.expires && r.executed <= now + 300
    && r.externalExecution && r.credentialed && ChecksOk(w, r.checks) && !r.violations
    && Pins.IsDigest(r.evidence) && RequestIdsOk(w, r.requestIds) && r.execution == c.execution
  }

  /** The witness `verify_server_audit` returns when the audit export bears the row out. */
  function WitnessFor(row: Row, file: string): Witness {
    Witness(row.client, row.binding, row.oauth, row.executed, row.window, row.requestIds, file)
  }

  /** One attempt to admit: the receipt file, the client it is for, the time, and what the audit
      export yields (`None` when it does not witness the receipt), with the supersede switch. */
  datatype Attempt = Attempt(file: string, client: string, now: int, audit: Option<string>, supersede: bool)

  function RowOf(w: Rules, c: Campaign, r: Receipt, a: Attempt): Row
    requires a.client in c.header.oauth && a.client in c.trusted
  {
    Row(a.client, r.surface, r.endpoint, r.source, r.runtime, PythonStrip(r.executionId), PythonStrip(r.providerRef),
        r.executed, r.campaignId, r.challenge, c.header.oauth[a.client], c.trusted[a.client], r.binding, r.execution,
        r.evidence, w.hash(a.file), r.checks, Stripped(r.requestIds), c.created, c.expires, c.window,
        Witness("", "", "", 0, 0, map[], ""))
  }

  /** `verify_receipt` then `verify_server_audit`; `None` when either refuses. */
  function Verified(w: Rules, c: Campaign, a: Attempt): Option<Row> {
    if a.client !in w.clients || a.client !in w.surfaces || a.client !in c.challenges
       || a.client !in c.header.oauth || a.client !in c.trusted then None
    else
      var r := w.parse(a.file);
      if r.None? || !ReceiptOk(w, c, r.value, a.client, a.now) || a.audit.None? then None
      else
        var row := RowOf(w, c, r.value, a);
        Some(row.(seen := WitnessFor(row, a.audit.value)))
  }

  // ---- merge --------------------------------------------------------------------------------

  /** `validate_existing_campaign_rows` on one row. */
  predicate InWindow(c: Campaign, row: Row) {
    && row.execution == c.execution && row.endpoint == c.header.endpoint
    && row.created == c.created && row.expires == c.expires && row.window == c.window
  }

  /** The rows a merge starts from: those of the existing document for the same campaign, none when
      there is no document or when an unfinished one of another campaign is superseded. */
  function Start(w: Rules, c: Campaign, existing: Option<Progress>, supersede: bool): Option<seq<Row>> {
    if existing.None? then Some([])
    else
      var p := existing.value;
      if p.header != c.header then
        if !supersede || !ValidExisting(w, p, p.header, p.trusted) || p.complete || |p.clients| >= |w.clients| then None
        else Some([])
      else if !ValidExisting(w, p, c.header, c.trusted)
        || exists i | 0 <= i < |p.clients| :: !InWindow(c, p.clients[i]) then None
      else Some(p.clients)
  }

  /** The reuse checks of `merge` against one admitted row: on the strings as they stand. */
  predicate Reuses(e: Row, row: Row) {
    || e.executionId == row.executionId || e.evidence == row.evidence || e.providerRef == row.providerRef
    || exists a, b | a in e.requestIds && b in row.requestIds :: e.requestIds[a] == row.requestIds[b]
  }

  function Document(w: Rules, c: Campaign, rows: seq<Row>): Progress {
    var done := |rows| == |w.clients|;
    Progress(c.header, c.trusted, rows, |rows|, done, true, done, done, false, false)
  }

  /** What the admission of one row rests on, named so that the argument about orders does not
      depend on what the checks look at. */
  datatype Scheme = Scheme(clients: seq<string>, ok: Row -> bool, apart: (Row, Row) -> bool,
                           reuses: (Row, Row) -> bool, verified: Attempt -> Option<Row>)

  function SchemeOf(w: Rules, c: Campaign): Scheme {
    Scheme(w.clients, row => RowOk(w, c.header, c.trusted, row) && InWindow(c, row),
           Apart, Reuses, a => Verified(w, c, a))
  }

  /** The rows after the attempt; `None` when it is refused. */
  function Add(s: Scheme, rows: seq<Row>, a: Attempt): Option<seq<Row>> {
    var row, m := s.verified(a), ById(rows);
    if row.None? then None
    else if a.client in m && m[a.client] != row.value then None
    else if a.client !in m && exists k | k in m :: s.reuses(m[k], row.value) then None
    else Some(Canon(s.clients, m[a.client := row.value]))
  }

  /** `merge`; `None` when it raises. */
  function Merge(w: Rules, c: Campaign, existing: Option<Progress>, a: Attempt): Option<Progress> {
    var rows := Start(w, c, existing, a.supersede);
    if rows.None? then None
    else
      var out := Add(SchemeOf(w, c), rows.value, a);
      if out.None? then None else Some(Document(w, c, out.value))
  }
}

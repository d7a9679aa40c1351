/** The assumptions made about admission can be met: the four clients and the check tables of the source,
    a campaign, and the receipts of two of the clients, which are admitted in either order. */
module AdmissionSample {
  import opened Collections
  import opened Text
  import opened Admission
  import opened AdmissionOrders
  import opened AdmissionSafety
  import opened AdmissionOutcomes
  import Pins = ImagePins

  function Digest(c: char): string { "sha256:" + seq(64, _ => c) }

  lemma DigestIs(c: char)
    requires '0' <= c <= '9'
    ensures Pins.IsDigest(Digest(c))
  {
  }

  lemma DigestsDiffer(c: char, d: char)
    requires c != d
    ensures Digest(c) != Digest(d)
  {
    assert Digest(c)[7] == c && Digest(d)[7] == d;
  }

  /** One value per client. */
  function PerClient<T>(a: T, b: T, c: T, d: T): map<string, T> {
    map["chatgpt" := a, "claude" := b, "gemini" := c, "grok" := d]
  }

  // ---- two clients --------------------------------------------------------------------------

  /** What tells the receipt of one client from that of another; `tag` makes the ids it chose itself. */
  datatype Party = Party(client: string, surface: string, oauth: string, challenge: string, evidence: string, tag: char)

  function Claude(): Party { Party("claude", "Claude remote MCP", "b", Digest('2'), Digest('5'), 'c') }

  function Gemini(): Party { Party("gemini", "Gemini remote MCP", "c", Digest('3'), Digest('6'), 'g') }

  /** The request id of a check: the checks differ by their place in the table. */
  function RequestId(tag: char, names: seq<string>, check: string): string
    requires check in names
  {
    seq(8 + Pos(names, check), _ => tag)
  }

  function RequestIds(tag: char, names: seq<string>): map<string, string> {
    map check | check in SetOf(names) :: RequestId(tag, names, check)
  }

  function AllPass(required: set<string>): map<string, bool> { map check | check in required :: true }

  function Receipted(c: Campaign, audited: seq<string>, required: set<string>, p: Party): Receipt {
    Receipt("MCP_EXTERNAL_CLIENT_EXECUTION_RECEIPT_V1", p.client, p.surface, c.header.protocol, c.header.transport,
            c.header.campaignId, p.challenge, c.header.source, c.header.runtime, p.oauth, "bound", c.header.endpoint,
            [p.tag], 5, seq(8, _ => p.tag), true, true, AllPass(required), false, p.evidence,
            RequestIds(p.tag, audited), c.execution)
  }

  /** A receipt file is the name of its client. */
  function SampleParse(c: Campaign, audited: seq<string>, required: set<string>, file: string): Option<Receipt> {
    if file == Claude().client then Some(Receipted(c, audited, required, Claude()))
    else if file == Gemini().client then Some(Receipted(c, audited, required, Gemini()))
    else None
  }

  function SampleHash(file: string): string {
    if file == Claude().client then Digest('7') else if file == Gemini().client then Digest('8') else Digest('9')
  }

  /** The rules of the source, with these tables of checks. */
  function RulesOf(audited: seq<string>, required: set<string>): Rules {
    Rules(CLIENTS, SURFACES, SetOf(audited), required, SampleHash,
          file => SampleParse(SampleCampaign(), audited, required, file), (_, _, _) => "bound")
  }

  function SampleHeader(): Header {
    Header(Digest('0'), "mcp-interop-1", Digest('0'), Digest('0'), PerClient("a", "b", "c", "d"),
           "s", "r", "2026-07-28", "streamable-http", "e")
  }

  function SampleTrusted(): map<string, string> { PerClient("t", "u", "v", "w") }

  function SampleCampaign(): Campaign {
    Campaign(SampleHeader(), SampleTrusted(),
             PerClient(Digest('1'), Digest('2'), Digest('3'), Digest('4')), "x", 0, 10, 60)
  }

  function AttemptOf(p: Party): Attempt { Attempt(p.client, p.client, 5, Some("export"), false) }

  // ---- the rules and the campaign -----------------------------------------------------------

  lemma SampleRulesOk(audited: seq<string>, required: set<string>)
    ensures RulesOk(RulesOf(audited, required))
  {
    DigestIs('7');
    DigestIs('8');
    DigestIs('9');
  }

  /** Bindings of one letter each. */
  lemma LettersApart(a: char, b: char, c: char, d: char)
    requires !IsPythonSpace(a) && !IsPythonSpace(b) && !IsPythonSpace(c) && !IsPythonSpace(d)
    requires a != b && a != c && a != d && b != c && b != d && c != d
    ensures BoundApart(PerClient([a], [b], [c], [d]))
  {
    var m := PerClient([a], [b], [c], [d]);
    TrimTight([a], IsPythonSpace);
    TrimTight([b], IsPythonSpace);
    TrimTight([c], IsPythonSpace);
    TrimTight([d], IsPythonSpace);
    assert [a][0] == a && [b][0] == b && [c][0] == c && [d][0] == d;
    forall k, l | k in m && l in m && k != l ensures PythonStrip(m[k]) != PythonStrip(m[l]) {
      PerClientIs([a], [b], [c], [d], k);
      PerClientIs([a], [b], [c], [d], l);
      PerClientDiffers([a], [b], [c], [d], k, l);
    }
  }

  lemma SampleHeaderOk(audited: seq<string>, required: set<string>)
    ensures HeaderOk(RulesOf(audited, required), SampleHeader(), SampleTrusted())
  {
    LettersApart('a', 'b', 'c', 'd');
    LettersApart('t', 'u', 'v', 'w');
    DigestIs('0');
  }

  lemma PerClientIs<T>(a: T, b: T, c: T, d: T, k: string)
    requires k in CLIENTS
    ensures k in PerClient(a, b, c, d) && (PerClient(a, b, c, d)[k] == a || PerClient(a, b, c, d)[k] == b
                                           || PerClient(a, b, c, d)[k] == c || PerClient(a, b, c, d)[k] == d)
  {
  }

  lemma PerClientDiffers<T>(a: T, b: T, c: T, d: T, k: string, l: string)
    requires k in CLIENTS && l in CLIENTS && k != l
    requires a != b && a != c && a != d && b != c && b != d && c != d
    ensures k in PerClient(a, b, c, d) && l in PerClient(a, b, c, d)
    ensures PerClient(a, b, c, d)[k] != PerClient(a, b, c, d)[l]
  {
  }

  lemma SampleChallenges(k: string, l: string)
    requires k in CLIENTS && l in CLIENTS
    ensures k in SampleCampaign().challenges && Pins.IsDigest(SampleCampaign().challenges[k])
    ensures l in SampleCampaign().challenges
    ensures k != l ==> SampleCampaign().challenges[k] != SampleCampaign().challenges[l]
  {
    var p, q, r, s := Digest('1'), Digest('2'), Digest('3'), Digest('4');
    DigestIs('1');
    DigestIs('2');
    DigestIs('3');
    DigestIs('4');
    PerClientIs(p, q, r, s, k);
    PerClientIs(p, q, r, s, l);
    DigestsDiffer('1', '2');
    DigestsDiffer('1', '3');
    DigestsDiffer('1', '4');
    DigestsDiffer('2', '3');
    DigestsDiffer('2', '4');
    DigestsDiffer('3', '4');
    if k != l { PerClientDiffers(p, q, r, s, k, l); }
  }

  lemma SampleOauth(k: string)
    requires k in CLIENTS
    ensures k in SampleHeader().oauth && PythonStrip(SampleHeader().oauth[k]) == SampleHeader().oauth[k]
  {
    PerClientIs("a", "b", "c", "d", k);
    TrimTight("a", IsPythonSpace);
    TrimTight("b", IsPythonSpace);
    TrimTight("c", IsPythonSpace);
    TrimTight("d", IsPythonSpace);
  }

  lemma SampleCampaignOk(audited: seq<string>, required: set<string>)
    ensures CampaignOk(RulesOf(audited, required), SampleCampaign())
  {
    SampleHeaderOk(audited, required);
    forall k, l | k in CLIENTS && l in CLIENTS
      ensures k in SampleCampaign().challenges && Pins.IsDigest(SampleCampaign().challenges[k])
      ensures l in SampleCampaign().challenges
      ensures k != l ==> SampleCampaign().challenges[k] != SampleCampaign().challenges[l]
    {
      SampleChallenges(k, l);
    }
    forall k | k in CLIENTS
      ensures k in SampleHeader().oauth && PythonStrip(SampleHeader().oauth[k]) == SampleHeader().oauth[k]
    {
      SampleOauth(k);
    }
  }

  // ---- a receipt ----------------------------------------------------------------------------

  /** A character that may stand in every id of a receipt. */
  predicate TagOk(tag: char) { RequestIdChar(tag) && '\U{21}' <= tag <= '\U{7e}' && !IsPythonSpace(tag) }

  lemma RequestIdIs(tag: char, names: seq<string>, check: string)
    requires TagOk(tag) && |names| <= 100 && check in names
    ensures PythonStrip(RequestId(tag, names, check)) == RequestId(tag, names, check)
    ensures RequestIdOk(RequestId(tag, names, check))
  {
    TrimTight(RequestId(tag, names, check), IsPythonSpace);
  }

  lemma RequestIdsAre(w: Rules, names: seq<string>, tag: char)
    requires w.audited == SetOf(names) && |names| <= 100 && TagOk(tag)
    ensures RequestIdsOk(w, RequestIds(tag, names)) && Stripped(RequestIds(tag, names)) == RequestIds(tag, names)
  {
    var ids := RequestIds(tag, names);
    forall check | check in ids ensures PythonStrip(ids[check]) == ids[check] && RequestIdOk(ids[check]) {
      RequestIdIs(tag, names, check);
    }
    forall a, b | a in ids && b in ids && a != b ensures ids[a] != ids[b] {
      assert |ids[a]| == 8 + Pos(names, a) && |ids[b]| == 8 + Pos(names, b);
    }
  }

  lemma TagKeys(tag: char)
    requires TagOk(tag)
    ensures PythonStrip([tag]) == [tag] && ExecutionIdOk([tag])
    ensures PythonStrip(seq(8, _ => tag)) == seq(8, _ => tag) && ProviderRefOk(seq(8, _ => tag))
  {
    TrimTight([tag], IsPythonSpace);
    TrimTight(seq(8, _ => tag), IsPythonSpace);
  }

  /** What the rules and the campaign say of the client of a receipt. */
  predicate Expected(w: Rules, c: Campaign, p: Party) {
    && p.client in w.clients && p.client in w.surfaces && w.surfaces[p.client] == p.surface
    && p.client in c.challenges && c.challenges[p.client] == p.challenge
    && p.client in c.header.oauth && c.header.oauth[p.client] == p.oauth && PythonStrip(p.oauth) == p.oauth
    && p.client in c.trusted && Pins.IsDigest(p.evidence) && TagOk(p.tag)
    && w.bind(c.header.campaignId, p.client, p.challenge) == "bound"
    && c.header.transport == "streamable-http" && c.created <= 5 < c.expires
  }

  lemma ReceiptIsOk(w: Rules, c: Campaign, names: seq<string>, p: Party)
    requires Expected(w, c, p) && w.audited == SetOf(names) && |names| <= 100
    ensures ReceiptOk(w, c, Receipted(c, names, w.required, p), p.client, 5)
  {
    RequestIdsAre(w, names, p.tag);
    TagKeys(p.tag);
  }

  lemma IsVerified(w: Rules, c: Campaign, names: seq<string>, p: Party)
    requires Expected(w, c, p) && w.audited == SetOf(names) && |names| <= 100
    requires w.parse(p.client) == Some(Receipted(c, names, w.required, p))
    ensures var row := Verified(w, c, AttemptOf(p));
            && row.Some? && row.value.executionId == [p.tag] && row.value.providerRef == seq(8, _ => p.tag)
            && row.value.evidence == p.evidence && row.value.requestIds == RequestIds(p.tag, names)
  {
    ReceiptIsOk(w, c, names, p);
    TagKeys(p.tag);
    RequestIdsAre(w, names, p.tag);
  }

  lemma ClaudeIsExpected(audited: seq<string>, required: set<string>)
    ensures Expected(RulesOf(audited, required), SampleCampaign(), Claude())
  {
    DigestIs('5');
    TrimTight("b", IsPythonSpace);
  }

  lemma GeminiIsExpected(audited: seq<string>, required: set<string>)
    ensures Expected(RulesOf(audited, required), SampleCampaign(), Gemini())
  {
    DigestIs('6');
    TrimTight("c", IsPythonSpace);
  }

  lemma TagsUnreused(x: Row, y: Row, s: char, t: char, names: seq<string>)
    requires s != t && x.executionId == [s] && y.executionId == [t] && x.evidence != y.evidence
    requires x.providerRef == seq(8, _ => s) && y.providerRef == seq(8, _ => t)
    requires x.requestIds == RequestIds(s, names) && y.requestIds == RequestIds(t, names)
    ensures !Reuses(x, y)
  {
    assert x.executionId[0] != y.executionId[0] && x.providerRef[0] != y.providerRef[0];
    forall a, b | a in x.requestIds && b in y.requestIds ensures x.requestIds[a] != y.requestIds[b] {
      assert x.requestIds[a][0] == s && y.requestIds[b][0] == t;
    }
  }

  // ---- both clients -------------------------------------------------------------------------

  lemma SampleVerifies(audited: seq<string>, required: set<string>)
    requires |audited| <= 100
    ensures var w, c, a, b := RulesOf(audited, required), SampleCampaign(), AttemptOf(Claude()), AttemptOf(Gemini());
            && Verified(w, c, a).Some? && Verified(w, c, b).Some? && a.client != b.client
            && !Reuses(Verified(w, c, a).value, Verified(w, c, b).value)
            && !Reuses(Verified(w, c, b).value, Verified(w, c, a).value)
  {
    var w, c := RulesOf(audited, required), SampleCampaign();
    ClaudeIsExpected(audited, required);
    GeminiIsExpected(audited, required);
    IsVerified(w, c, audited, Claude());
    IsVerified(w, c, audited, Gemini());
    DigestsDiffer('5', '6');
    var x, y := Verified(w, c, AttemptOf(Claude())).value, Verified(w, c, AttemptOf(Gemini())).value;
    TagsUnreused(x, y, 'c', 'g', audited);
    TagsUnreused(y, x, 'g', 'c', audited);
  }

  lemma SampleFilesDiffer(audited: seq<string>, required: set<string>)
    ensures CollisionFree(RulesOf(audited, required), [AttemptOf(Claude()), AttemptOf(Gemini())])
    ensures AttemptOf(Claude()).file != AttemptOf(Gemini()).file
  {
    DigestsDiffer('7', '8');
  }

  lemma TwoOfAnyTables(audited: seq<string>, required: set<string>)
    returns (w: Rules, c: Campaign, a: Attempt, b: Attempt)
    requires |audited| <= 100
    ensures w.clients == CLIENTS && w.surfaces == SURFACES && w.audited == SetOf(audited) && w.required == required
    ensures RulesOk(w) && CampaignOk(w, c) && CollisionFree(w, [a, b]) && a.file != b.file && a.client != b.client
    ensures Verified(w, c, a).Some? && Verified(w, c, b).Some?
    ensures !Reuses(Verified(w, c, a).value, Verified(w, c, b).value)
    ensures AllAdmit(w, c, [a, b])
  {
    w, c, a, b := RulesOf(audited, required), SampleCampaign(), AttemptOf(Claude()), AttemptOf(Gemini());
    SampleRulesOk(audited, required);
    SampleCampaignOk(audited, required);
    SampleVerifies(audited, required);
    SampleFilesDiffer(audited, required);
    BothAdmit(w, c, a, b);
  }

  /** The source's tables, a campaign, and two receipt files, told apart by their digests, of two clients:
      every assumption made about admission holds of them, and both attempts are admitted. */
  lemma TwoAreAdmitted() returns (w: Rules, c: Campaign, a: Attempt, b: Attempt)
    ensures w.clients == CLIENTS && w.surfaces == SURFACES
    ensures w.audited == SetOf(AUDITED_CHECKS) && w.required == SetOf(REQUIRED_CHECKS)
    ensures RulesOk(w) && CampaignOk(w, c) && CollisionFree(w, [a, b]) && a.file != b.file && a.client != b.client
    ensures Verified(w, c, a).Some? && Verified(w, c, b).Some?
    ensures !Reuses(Verified(w, c, a).value, Verified(w, c, b).value)
    ensures AllAdmit(w, c, [a, b])
  {
    w, c, a, b := TwoOfAnyTables(AUDITED_CHECKS, SetOf(REQUIRED_CHECKS));
  }

  /** Two verified receipts of different clients that share nothing are admitted one after the other. */
  lemma BothAdmit(w: Rules, c: Campaign, a: Attempt, b: Attempt)
    requires RulesOk(w) && CampaignOk(w, c) && CollisionFree(w, [a, b]) && a.client != b.client
    requires Verified(w, c, a).Some? && Verified(w, c, b).Some?
    requires !Reuses(Verified(w, c, a).value, Verified(w, c, b).value)
    requires !Reuses(Verified(w, c, b).value, Verified(w, c, a).value)
    ensures AllAdmit(w, c, [a, b])
  {
    var s := SchemeOf(w, c);
    SchemeLaws(w, c);
    SchemeExact(w, c, [a, b]);
    PairAgrees(s, a, b);
    AllAdmittedIff(s, [a, b]);
    AllAdmitIs(w, c, [a, b]);
  }

  lemma PairAgrees(s: Scheme, a: Attempt, b: Attempt)
    requires a.client != b.client && s.verified(a).Some? && s.verified(b).Some?
    requires !s.reuses(s.verified(a).value, s.verified(b).value) && !s.reuses(s.verified(b).value, s.verified(a).value)
    ensures AllAgree(s, [a, b])
  {
  }

  /** The two orders of the sample: both admitted throughout, and one document. */
  lemma OrdersOfTheSample() returns (w: Rules, c: Campaign, a: Attempt, b: Attempt)
    ensures a.client != b.client && AllAdmit(w, c, [a, b]) && AllAdmit(w, c, [b, a])
    ensures Run(w, c, [a, b]).Some? && Run(w, c, [a, b]) == Run(w, c, [b, a])
  {
    w, c, a, b := TwoAreAdmitted();
    Confluent(w, c, [a, b], [b, a]);
    assert [a, b][..1] == [a];
  }

  /** A document that `validate_existing` accepts, and a receipt that `merge` admits into it, with a result
      that `validate_existing` refuses. */
  lemma PaddedKeyInTheSample() returns (w: Rules, c: Campaign, p: Progress, b: Attempt)
    ensures RulesOk(w) && CampaignOk(w, c) && ValidExisting(w, p, c.header, c.trusted)
    ensures Merge(w, c, Some(p), b).Some?
    ensures !ValidExisting(w, Merge(w, c, Some(p), b).value, c.header, c.trusted)
  {
    var a;
    w, c, a, b := TwoAreAdmitted();
    p := PaddedKeySlipsThrough(w, c, a, b);
  }

  // ---- superseding --------------------------------------------------------------------------

  /** The same campaign issued again in another file. */
  function Reissued(c: Campaign, sha: string): Campaign { c.(header := c.header.(campaignSha := sha)) }

  lemma ReissuedVerifies(w: Rules, c: Campaign, sha: string, a: Attempt, supersede: bool)
    requires CampaignOk(w, c) && Pins.IsDigest(sha)
    ensures CampaignOk(w, Reissued(c, sha))
    ensures Verified(w, Reissued(c, sha), a.(supersede := supersede)) == Verified(w, c, a)
  {
  }

  lemma OneRowDocument(w: Rules, c: Campaign, a: Attempt)
    requires RulesOk(w) && CampaignOk(w, c) && Verified(w, c, a).Some? && |w.clients| > 1
    ensures var p := Document(w, c, [Verified(w, c, a).value]);
            ValidExisting(w, p, p.header, p.trusted) && !p.complete
  {
    var row := Verified(w, c, a).value;
    VerifiedRow(w, c, a);
    OneRow(w, c, row);
    DocumentValid(w, c, [row]);
  }

  /** A valid unfinished document that holds a row, superseded by a reissued campaign. */
  lemma SupersedeInTheSample() returns (w: Rules, c: Campaign, p: Progress, b: Attempt)
    ensures RulesOk(w) && CampaignOk(w, c) && p.clients != [] && p.header != c.header
    ensures Merge(w, c, Some(p), b).Some? && Merge(w, c, Some(p), b.(supersede := false)).None?
  {
    var old_, a;
    w, old_, a, b := TwoAreAdmitted();
    DigestIs('1');
    DigestIs('2');
    DigestsDiffer('1', '2');
    var sha := if old_.header.campaignSha == Digest('1') then Digest('2') else Digest('1');
    c, p := Reissued(old_, sha), Document(w, old_, [Verified(w, old_, a).value]);
    ReissuedVerifies(w, old_, sha, b, true);
    OneRowDocument(w, old_, a);
    b := b.(supersede := true);
    SupersedeStartsAfresh(w, c, p, b);
    SupersedeStartsAfresh(w, c, p, b.(supersede := false));
  }
}

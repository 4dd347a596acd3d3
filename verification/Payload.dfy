/** What the payload, envelope and evidence hashes commit to. SHA-256 is a parameter: every statement
    is about the bytes it is fed, so none rests on it. */
module Payload {
  import opened Base
  import opened Model
  import opened Wire

  type Sha = seq<byte> -> Bytes32

  // ----- Committed content -----

  /** A row as an executor sees it: the committed identity bytes and the amount. */
  datatype RowContent = RowContent(recipient: seq<byte>, asset: seq<byte>, rawAmount: u128)

  /** What an approval authorises. Names are present as the digests that are hashed. */
  datatype Content =
    | TransferContent(row: RowContent, commitment: Bytes32)
    | BatchContent(rows: seq<RowContent>)
    | GovernanceContent(target: byte, approval: byte, cancellation: byte, timelock: u32,
                        proposers: seq<Bytes32>, approvers: seq<Bytes32>)
    | PolicyContent(chainKind: byte, newPolicy: Bytes32)
    | AssetPolicyContent(chainKind: byte, scopeKind: byte, decimals: byte, mint: Bytes32,
                         displayAsset: seq<byte>, newPolicy: Bytes32)
    | ReleaseContent(escrow: seq<byte>, milestone: seq<byte>, row: RowContent, commitment: Bytes32)
    | ReturnContent(escrow: seq<byte>, rows: seq<RowContent>, commitment: Bytes32)
    | TradeContent(agent: seq<byte>, venue: seq<byte>, market: seq<byte>, side: seq<byte>, asset: seq<byte>,
                   notional: u128, leverage: u32, session: seq<byte>, route: seq<byte>, risk: seq<byte>)
    | SessionContent(session32: Bytes32, agent32: Bytes32, venue32: Bytes32, market32: Bytes32,
                     notional: u128, leverage: u32, expiry: i64, status: byte)
    | RiskContent(session32: Bytes32, oracle: Bytes32, maxLoss: u128, status: byte)
    | SettlementContent(session32: Bytes32, execution: Bytes32, artifact: Bytes32, oracle: Bytes32,
                        closed: u128, outcome: byte, pnl: u128, sequence: u64)
    | RecurringContent(schedule: seq<byte>, row: RowContent, commitment: Bytes32,
                       interval: u32, first: i64, count: u32, status: byte)

  /** `update_identity`: digests stand for the texts of remote identities. */
  function Committed(sha: Sha, encoding: IdentityEncoding, value: seq<byte>): seq<byte> {
    if encoding.Sha256Text? then sha(value) else value
  }

  function RowContentOf(sha: Sha, row: TransferRow): RowContent {
    RowContent(Committed(sha, row.recipientEncoding, row.recipient),
               Committed(sha, row.assetEncoding, row.asset), row.rawAmount)
  }

  function RowContents(sha: Sha, rows: seq<TransferRow>): (r: seq<RowContent>)
    ensures |r| == |rows|
  {
    if rows == [] then [] else [RowContentOf(sha, rows[0])] + RowContents(sha, rows[1..])
  }

  function ContentOf(sha: Sha, body: Body): Content {
    match body
    case SendBody(row, commitment, _) => TransferContent(RowContentOf(sha, row), commitment)
    case BatchBody(rows) => BatchContent(RowContents(sha, rows))
    case GovernanceBody(_, target, approval, cancellation, timelock, proposers, approvers) =>
      GovernanceContent(target, approval, cancellation, timelock, proposers, approvers)
    case PolicyBody(chainKind, newPolicy) => PolicyContent(chainKind, newPolicy)
    case AssetPolicyBody(chainKind, scopeKind, decimals, mint, displayAsset, newPolicy) =>
      AssetPolicyContent(chainKind, scopeKind, decimals, mint, displayAsset, newPolicy)
    case EscrowReleaseBody(escrowId, _, milestoneId, _, payment, commitment) =>
      ReleaseContent(sha(escrowId), sha(milestoneId), RowContentOf(sha, payment), commitment)
    case EscrowReturnBody(escrowId, _, rows, commitment) =>
      ReturnContent(sha(escrowId), RowContents(sha, rows), commitment)
    case AgentTradeBody(agentId, venue, market, side, assetId, notional, leverage, sessionId, route, risk) =>
      TradeContent(sha(agentId), sha(venue), sha(market), sha(side), sha(assetId), notional, leverage,
                   sha(sessionId), sha(route), risk)
    case AgentSessionBody(sessionId, agentId, venue, market, notional, leverage, expiry, status) =>
      SessionContent(sha(sessionId), sha(agentId), sha(venue), sha(market), notional, leverage, expiry, status)
    case AgentRiskBody(sessionId, oracle, maxLoss, status) => RiskContent(sha(sessionId), oracle, maxLoss, status)
    case AgentSettlementBody(sessionId, executionId, artifact, oracle, closed, outcome, pnl, sequence) =>
      SettlementContent(sha(sessionId), sha(executionId), artifact, oracle, closed, outcome, pnl, sequence)
    case RecurringBody(scheduleId, payment, commitment, interval, first, count, status) =>
      RecurringContent(sha(scheduleId), RowContentOf(sha, payment), commitment, interval, first, count, status)
  }

  // ----- Preimages -----

  const PAYLOAD_DOMAIN: seq<byte> := Ascii("clearsig:policy-engine:v2:payload")

  /** `update_bytes`: the length is cut to 32 bits. */
  function Prefixed(v: seq<byte>, t: seq<byte>): (r: seq<byte>)
    ensures |r| == 4 + |v| + |t|
  {
    LE(|v| % 0x1_0000_0000, 4) + (v + t)
  }

  /** `update_execution_commitment`: nothing at all for the zero commitment. */
  function CommitmentThen(c: Bytes32, t: seq<byte>): seq<byte> {
    if IsZero(c) then t else Prefixed(Ascii("execution_template"), c + t)
  }

  function RowContentThen(row: RowContent, t: seq<byte>): seq<byte> {
    Prefixed(row.recipient, Prefixed(row.asset, LE(row.rawAmount, 16) + t))
  }

  function RowContentsThen(rows: seq<RowContent>, t: seq<byte>): seq<byte> {
    if rows == [] then t else RowContentThen(rows[0], RowContentsThen(rows[1..], t))
  }

  function ContentBytes(c: Content): seq<byte> {
    match c
    case TransferContent(row, commitment) => RowContentThen(row, CommitmentThen(commitment, []))
    case BatchContent(rows) => LE(|rows|, 4) + RowContentsThen(rows, [])
    case GovernanceContent(target, approval, cancellation, timelock, proposers, approvers) =>
      Prefixed(Ascii("intent_governance"), [target] + ([approval] + ([cancellation] + (LE(timelock, 4)
      + (LE(|proposers|, 4) + (Flat(proposers) + (LE(|approvers|, 4) + Flat(approvers))))))))
    case PolicyContent(chainKind, newPolicy) => Prefixed(Ascii("wallet_policy"), [chainKind] + newPolicy)
    case AssetPolicyContent(chainKind, scopeKind, decimals, mint, displayAsset, newPolicy) =>
      Prefixed(Ascii("asset_policy"), [chainKind, scopeKind, decimals] + (mint + Prefixed(displayAsset, newPolicy)))
    case ReleaseContent(escrow, milestone, row, commitment) =>
      Prefixed(escrow, Prefixed(milestone, RowContentThen(row, CommitmentThen(commitment, []))))
    case ReturnContent(escrow, rows, commitment) =>
      Prefixed(escrow, LE(|rows| % 0x1_0000_0000, 4) + RowContentsThen(rows, CommitmentThen(commitment, [])))
    case TradeContent(agent, venue, market, side, asset, notional, leverage, session, route, risk) =>
      Prefixed(agent, Prefixed(venue, Prefixed(market, Prefixed(side, Prefixed(asset, LE(notional, 16)
      + (LE(leverage, 4) + Prefixed(session, Prefixed(route, Prefixed(risk, [])))))))))
    case SessionContent(session, agent, venue, market, notional, leverage, expiry, status) =>
      Prefixed(Ascii("agent_session"), session + (agent + (venue + (market + (LE(notional, 16)
      + (LE(leverage, 4) + (LE(Twos(expiry), 8) + [status])))))))
    case RiskContent(session, oracle, maxLoss, status) =>
      Prefixed(Ascii("agent_risk_policy"), session + (oracle + (LE(maxLoss, 16) + [status])))
    case SettlementContent(session, execution, artifact, oracle, closed, outcome, pnl, sequence) =>
      Prefixed(Ascii("agent_trade_settlement"), session + (execution + (artifact + (oracle + (LE(closed, 16)
      + ([outcome] + (LE(pnl, 16) + LE(sequence, 8))))))))
    case RecurringContent(schedule, row, commitment, interval, first, count, status) =>
      Prefixed(schedule, RowContentThen(row, CommitmentThen(commitment, LE(interval, 4)
      + (LE(Twos(first), 8) + (LE(count, 4) + [status])))))
  }

  /** The payload preimage: domain, kind code, content. */
  function Preimage(kind: ActionKind, content: Content): seq<byte> {
    Prefixed(PAYLOAD_DOMAIN, [kind.Code()] + ContentBytes(content))
  }

  /** The contents that a kind hashes, with lengths that their 32-bit prefixes can say. */
  ghost predicate Fits(kind: ActionKind, c: Content) {
    match c
    case TransferContent(row, _) => kind.Send? && RowOk(row)
    case BatchContent(rows) => kind.BatchSend? && RowsOk(rows)
    case GovernanceContent(_, _, _, _, proposers, approvers) =>
      IsGovernance(kind) && |proposers| < 0x1_0000_0000 && |approvers| < 0x1_0000_0000
    case PolicyContent(_, _) => kind.SetProtection?
    case AssetPolicyContent(_, _, _, _, displayAsset, _) =>
      kind.SetAssetProtection? && |displayAsset| < 0x1_0000_0000
    case ReleaseContent(escrow, milestone, row, _) =>
      kind.ReleaseMilestone? && |escrow| < 0x1_0000_0000 && |milestone| < 0x1_0000_0000 && RowOk(row)
    case ReturnContent(escrow, rows, _) => kind.ReturnEscrowFunds? && |escrow| < 0x1_0000_0000 && RowsOk(rows)
    case TradeContent(agent, venue, market, side, asset, _, _, session, route, risk) =>
      kind.AgentTradeApproval? && |agent| == |venue| == |market| == |side| == |asset| == 32
      && |session| == |route| == |risk| == 32
    case SessionContent(_, _, _, _, _, _, _, _) => kind.AgentSessionGrant?
    case RiskContent(_, _, _, _) => kind.AgentRiskPolicy?
    case SettlementContent(_, _, _, _, _, _, _, _) => kind.AgentTradeSettlement?
    case RecurringContent(schedule, row, _, _, _, _, _) =>
      kind.RecurringSchedule? && |schedule| < 0x1_0000_0000 && RowOk(row)
  }

  ghost predicate RowOk(row: RowContent) {
    |row.recipient| < 0x1_0000_0000 && |row.asset| < 0x1_0000_0000
  }

  ghost predicate RowsOk(rows: seq<RowContent>) {
    |rows| < 0x1_0000_0000 && forall i :: 0 <= i < |rows| ==> RowOk(rows[i])
  }

  // ----- Reading a preimage back -----

  lemma WordEqual(v: nat, w: nat, n: nat, s: seq<byte>, t: seq<byte>)
    requires v < Pow(256, n) && w < Pow(256, n) && LE(v, n) + s == LE(w, n) + t
    ensures v == w && s == t
  {
    hide LE, Pow, FromLE;
    SplitEqual(LE(v, n), LE(w, n), s, t);
    LERoundTrip(v, n);
    LERoundTrip(w, n);
  }

  lemma PrefixedEqual(v: seq<byte>, w: seq<byte>, s: seq<byte>, t: seq<byte>)
    requires |v| < 0x1_0000_0000 && |w| < 0x1_0000_0000 && Prefixed(v, s) == Prefixed(w, t)
    ensures v == w && s == t
  {
    hide LE, Pow;
    WordSizes();
    WordEqual(|v|, |w|, 4, v + s, w + t);
    SplitEqual(v, w, s, t);
  }

  lemma RowEqual(a: RowContent, b: RowContent, s: seq<byte>, t: seq<byte>)
    requires RowOk(a) && RowOk(b) && RowContentThen(a, s) == RowContentThen(b, t)
    ensures a == b && s == t
  {
    hide LE, Pow, Prefixed;
    PrefixedEqual(a.recipient, b.recipient, Prefixed(a.asset, LE(a.rawAmount, 16) + s),
                  Prefixed(b.asset, LE(b.rawAmount, 16) + t));
    PrefixedEqual(a.asset, b.asset, LE(a.rawAmount, 16) + s, LE(b.rawAmount, 16) + t);
    WordSizes();
    WordEqual(a.rawAmount, b.rawAmount, 16, s, t);
  }

  lemma {:induction false} RowsEqual(a: seq<RowContent>, b: seq<RowContent>, s: seq<byte>, t: seq<byte>)
    requires RowsOk(a) && RowsOk(b) && |a| == |b| && RowContentsThen(a, s) == RowContentsThen(b, t)
    ensures a == b && s == t
  {
    hide RowContentThen;
    if a != [] {
      RowEqual(a[0], b[0], RowContentsThen(a[1..], s), RowContentsThen(b[1..], t));
      RowsEqual(a[1..], b[1..], s, t);
      assert a == [a[0]] + a[1..] && b == [b[0]] + b[1..];
    }
  }

  /** The optional commitment at the end of a message. */
  lemma LastCommitmentEqual(a: Bytes32, b: Bytes32)
    requires CommitmentThen(a, []) == CommitmentThen(b, [])
    ensures a == b
  {
    hide LE, Prefixed;
    if !IsZero(a) && !IsZero(b) {
      PrefixedEqual(Ascii("execution_template"), Ascii("execution_template"), a + [], b + []);
      SplitEqual(a, b, [], []);
    }
  }

  /** The optional commitment inside a recurring schedule: its presence shows in the length of what
      follows, so the fields behind it stay where they can be read. */
  lemma InnerCommitmentEqual(a: Bytes32, b: Bytes32, s: seq<byte>, t: seq<byte>)
    requires |s| == |t| && CommitmentThen(a, s) == CommitmentThen(b, t)
    ensures a == b && s == t
  {
    hide LE, Prefixed;
    if !IsZero(a) && !IsZero(b) {
      PrefixedEqual(Ascii("execution_template"), Ascii("execution_template"), a + s, b + t);
      SplitEqual(a, b, s, t);
    }
  }

  lemma {:induction false} FlatEqual(a: seq<Bytes32>, b: seq<Bytes32>)
    requires Flat(a) == Flat(b)
    ensures a == b
  {
    if a != [] {
      assert b != [];
      SplitEqual(a[0], b[0], Flat(a[1..]), Flat(b[1..]));
      FlatEqual(a[1..], b[1..]);
      assert a == [a[0]] + a[1..] && b == [b[0]] + b[1..];
    }
  }

  // ----- Each content is determined by its bytes -----

  lemma TransferEqual(kind: ActionKind, c: Content, d: Content)
    requires Fits(kind, c) && Fits(kind, d) && ContentBytes(c) == ContentBytes(d)
    requires c.TransferContent? && d.TransferContent?
    ensures c == d
  {
    hide RowContentThen, CommitmentThen;
    RowEqual(c.row, d.row, CommitmentThen(c.commitment, []), CommitmentThen(d.commitment, []));
    LastCommitmentEqual(c.commitment, d.commitment);
  }

  lemma BatchEqual(kind: ActionKind, c: Content, d: Content)
    requires Fits(kind, c) && Fits(kind, d) && ContentBytes(c) == ContentBytes(d)
    requires c.BatchContent? && d.BatchContent?
    ensures c == d
  {
    hide LE, RowContentsThen, RowOk, Pow;
    WordSizes();
    WordEqual(|c.rows|, |d.rows|, 4, RowContentsThen(c.rows, []), RowContentsThen(d.rows, []));
    RowsEqual(c.rows, d.rows, [], []);
  }

  lemma GovernanceEqual(kind: ActionKind, c: Content, d: Content)
    requires Fits(kind, c) && Fits(kind, d) && ContentBytes(c) == ContentBytes(d)
    requires c.GovernanceContent? && d.GovernanceContent?
    ensures c == d
  {
    hide LE, Flat, Prefixed, Pow;
    WordSizes();
    var c4, d4 := LE(|c.approvers|, 4) + Flat(c.approvers), LE(|d.approvers|, 4) + Flat(d.approvers);
    var c3, d3 := LE(|c.proposers|, 4) + (Flat(c.proposers) + c4), LE(|d.proposers|, 4) + (Flat(d.proposers) + d4);
    var c2, d2 := LE(c.timelock, 4) + c3, LE(d.timelock, 4) + d3;
    var c1, d1 := [c.approval] + ([c.cancellation] + c2), [d.approval] + ([d.cancellation] + d2);
    PrefixedEqual(Ascii("intent_governance"), Ascii("intent_governance"), [c.target] + c1, [d.target] + d1);
    SplitEqual([c.target], [d.target], c1, d1);
    SplitEqual([c.approval], [d.approval], [c.cancellation] + c2, [d.cancellation] + d2);
    SplitEqual([c.cancellation], [d.cancellation], c2, d2);
    WordEqual(c.timelock, d.timelock, 4, c3, d3);
    WordEqual(|c.proposers|, |d.proposers|, 4, Flat(c.proposers) + c4, Flat(d.proposers) + d4);
    SplitEqual(Flat(c.proposers), Flat(d.proposers), c4, d4);
    WordEqual(|c.approvers|, |d.approvers|, 4, Flat(c.approvers), Flat(d.approvers));
    FlatEqual(c.proposers, d.proposers);
    FlatEqual(c.approvers, d.approvers);
  }

  lemma PolicyEqual(kind: ActionKind, c: Content, d: Content)
    requires Fits(kind, c) && Fits(kind, d) && ContentBytes(c) == ContentBytes(d)
    requires (c.PolicyContent? && d.PolicyContent?) || (c.AssetPolicyContent? && d.AssetPolicyContent?)
    ensures c == d
  {
    hide LE, Prefixed;
    if c.PolicyContent? {
      PrefixedEqual(Ascii("wallet_policy"), Ascii("wallet_policy"), [c.chainKind] + c.newPolicy, [d.chainKind] + d.newPolicy);
      SplitEqual([c.chainKind], [d.chainKind], c.newPolicy, d.newPolicy);
    } else {
      var c2, d2 := Prefixed(c.displayAsset, c.newPolicy), Prefixed(d.displayAsset, d.newPolicy);
      var c0, d0 := [c.chainKind, c.scopeKind, c.decimals], [d.chainKind, d.scopeKind, d.decimals];
      PrefixedEqual(Ascii("asset_policy"), Ascii("asset_policy"), c0 + (c.mint + c2), d0 + (d.mint + d2));
      SplitEqual(c0, d0, c.mint + c2, d.mint + d2);
      assert c0[0] == d0[0] && c0[1] == d0[1] && c0[2] == d0[2];
      SplitEqual(c.mint, d.mint, c2, d2);
      PrefixedEqual(c.displayAsset, d.displayAsset, c.newPolicy, d.newPolicy);
    }
  }

  lemma EscrowEqual(kind: ActionKind, c: Content, d: Content)
    requires Fits(kind, c) && Fits(kind, d) && ContentBytes(c) == ContentBytes(d)
    requires (c.ReleaseContent? && d.ReleaseContent?) || (c.ReturnContent? && d.ReturnContent?)
    ensures c == d
  {
    hide LE, Prefixed, RowContentThen, RowContentsThen, CommitmentThen, RowOk, Pow;
    var c1, d1 := CommitmentThen(c.commitment, []), CommitmentThen(d.commitment, []);
    if c.ReleaseContent? {
      var c2, d2 := RowContentThen(c.row, c1), RowContentThen(d.row, d1);
      PrefixedEqual(c.escrow, d.escrow, Prefixed(c.milestone, c2), Prefixed(d.milestone, d2));
      PrefixedEqual(c.milestone, d.milestone, c2, d2);
      RowEqual(c.row, d.row, c1, d1);
    } else {
      WordSizes();
      var c2, d2 := RowContentsThen(c.rows, c1), RowContentsThen(d.rows, d1);
      PrefixedEqual(c.escrow, d.escrow, LE(|c.rows| % 0x1_0000_0000, 4) + c2, LE(|d.rows| % 0x1_0000_0000, 4) + d2);
      WordEqual(|c.rows|, |d.rows|, 4, c2, d2);
      RowsEqual(c.rows, d.rows, c1, d1);
    }
    LastCommitmentEqual(c.commitment, d.commitment);
  }

  lemma TradeEqual(kind: ActionKind, c: Content, d: Content)
    requires Fits(kind, c) && Fits(kind, d) && ContentBytes(c) == ContentBytes(d)
    requires c.TradeContent? && d.TradeContent?
    ensures c == d
  {
    hide LE, Prefixed, Pow;
    WordSizes();
    var c8, d8 := Prefixed(c.risk, []), Prefixed(d.risk, []);
    var c7, d7 := Prefixed(c.session, Prefixed(c.route, c8)), Prefixed(d.session, Prefixed(d.route, d8));
    var c6, d6 := LE(c.notional, 16) + (LE(c.leverage, 4) + c7), LE(d.notional, 16) + (LE(d.leverage, 4) + d7);
    var c5, d5 := Prefixed(c.asset, c6), Prefixed(d.asset, d6);
    var c4, d4 := Prefixed(c.side, c5), Prefixed(d.side, d5);
    var c3, d3 := Prefixed(c.market, c4), Prefixed(d.market, d4);
    PrefixedEqual(c.agent, d.agent, Prefixed(c.venue, c3), Prefixed(d.venue, d3));
    PrefixedEqual(c.venue, d.venue, c3, d3);
    PrefixedEqual(c.market, d.market, c4, d4);
    PrefixedEqual(c.side, d.side, c5, d5);
    PrefixedEqual(c.asset, d.asset, c6, d6);
    WordEqual(c.notional, d.notional, 16, LE(c.leverage, 4) + c7, LE(d.leverage, 4) + d7);
    WordEqual(c.leverage, d.leverage, 4, c7, d7);
    PrefixedEqual(c.session, d.session, Prefixed(c.route, c8), Prefixed(d.route, d8));
    PrefixedEqual(c.route, d.route, c8, d8);
    PrefixedEqual(c.risk, d.risk, [], []);
  }

  lemma SessionEqual(kind: ActionKind, c: Content, d: Content)
    requires Fits(kind, c) && Fits(kind, d) && ContentBytes(c) == ContentBytes(d)
    requires c.SessionContent? && d.SessionContent?
    ensures c == d
  {
    hide LE, Prefixed, Pow;
    WordSizes();
    var c5, d5 := LE(Twos(c.expiry), 8) + [c.status], LE(Twos(d.expiry), 8) + [d.status];
    var c4, d4 := LE(c.notional, 16) + (LE(c.leverage, 4) + c5), LE(d.notional, 16) + (LE(d.leverage, 4) + d5);
    var c3, d3 := c.venue32 + (c.market32 + c4), d.venue32 + (d.market32 + d4);
    PrefixedEqual(Ascii("agent_session"), Ascii("agent_session"), c.session32 + (c.agent32 + c3),
                  d.session32 + (d.agent32 + d3));
    SplitEqual(c.session32, d.session32, c.agent32 + c3, d.agent32 + d3);
    SplitEqual(c.agent32, d.agent32, c3, d3);
    SplitEqual(c.venue32, d.venue32, c.market32 + c4, d.market32 + d4);
    SplitEqual(c.market32, d.market32, c4, d4);
    WordEqual(c.notional, d.notional, 16, LE(c.leverage, 4) + c5, LE(d.leverage, 4) + d5);
    WordEqual(c.leverage, d.leverage, 4, c5, d5);
    WordEqual(Twos(c.expiry), Twos(d.expiry), 8, [c.status], [d.status]);
    assert [c.status][0] == [d.status][0];
  }

  lemma RiskOrSettlementEqual(kind: ActionKind, c: Content, d: Content)
    requires Fits(kind, c) && Fits(kind, d) && ContentBytes(c) == ContentBytes(d)
    requires (c.RiskContent? && d.RiskContent?) || (c.SettlementContent? && d.SettlementContent?)
    ensures c == d
  {
    hide LE, Prefixed, Pow;
    WordSizes();
    if c.RiskContent? {
      var c2, d2 := LE(c.maxLoss, 16) + [c.status], LE(d.maxLoss, 16) + [d.status];
      PrefixedEqual(Ascii("agent_risk_policy"), Ascii("agent_risk_policy"), c.session32 + (c.oracle + c2),
                    d.session32 + (d.oracle + d2));
      SplitEqual(c.session32, d.session32, c.oracle + c2, d.oracle + d2);
      SplitEqual(c.oracle, d.oracle, c2, d2);
      WordEqual(c.maxLoss, d.maxLoss, 16, [c.status], [d.status]);
      assert [c.status][0] == [d.status][0];
    } else {
      var c5, d5 := LE(c.pnl, 16) + LE(c.sequence, 8), LE(d.pnl, 16) + LE(d.sequence, 8);
      var c4, d4 := LE(c.closed, 16) + ([c.outcome] + c5), LE(d.closed, 16) + ([d.outcome] + d5);
      var c3, d3 := c.artifact + (c.oracle + c4), d.artifact + (d.oracle + d4);
      PrefixedEqual(Ascii("agent_trade_settlement"), Ascii("agent_trade_settlement"),
                    c.session32 + (c.execution + c3), d.session32 + (d.execution + d3));
      SplitEqual(c.session32, d.session32, c.execution + c3, d.execution + d3);
      SplitEqual(c.execution, d.execution, c3, d3);
      SplitEqual(c.artifact, d.artifact, c.oracle + c4, d.oracle + d4);
      SplitEqual(c.oracle, d.oracle, c4, d4);
      WordEqual(c.closed, d.closed, 16, [c.outcome] + c5, [d.outcome] + d5);
      SplitEqual([c.outcome], [d.outcome], c5, d5);
      WordEqual(c.pnl, d.pnl, 16, LE(c.sequence, 8), LE(d.sequence, 8));
      WordEqual(c.sequence, d.sequence, 8, [], []);
    }
  }

  lemma RecurringEqual(kind: ActionKind, c: Content, d: Content)
    requires Fits(kind, c) && Fits(kind, d) && ContentBytes(c) == ContentBytes(d)
    requires c.RecurringContent? && d.RecurringContent?
    ensures c == d
  {
    hide LE, Prefixed, RowContentThen, CommitmentThen, Pow;
    WordSizes();
    var c3, d3 := LE(c.count, 4) + [c.status], LE(d.count, 4) + [d.status];
    var c2, d2 := LE(Twos(c.first), 8) + c3, LE(Twos(d.first), 8) + d3;
    var c1, d1 := LE(c.interval, 4) + c2, LE(d.interval, 4) + d2;
    PrefixedEqual(c.schedule, d.schedule, RowContentThen(c.row, CommitmentThen(c.commitment, c1)),
                  RowContentThen(d.row, CommitmentThen(d.commitment, d1)));
    RowEqual(c.row, d.row, CommitmentThen(c.commitment, c1), CommitmentThen(d.commitment, d1));
    InnerCommitmentEqual(c.commitment, d.commitment, c1, d1);
    WordEqual(c.interval, d.interval, 4, c2, d2);
    WordEqual(Twos(c.first), Twos(d.first), 8, c3, d3);
    WordEqual(c.count, d.count, 4, [c.status], [d.status]);
    assert [c.status][0] == [d.status][0];
  }

  // ----- Main results -----

  lemma ContentEqual(kind: ActionKind, c: Content, d: Content)
    requires Fits(kind, c) && Fits(kind, d) && ContentBytes(c) == ContentBytes(d)
    ensures c == d
  {
    hide ContentBytes, RowOk, RowsOk;
    match c {
      case TransferContent(_, _) => TransferEqual(kind, c, d);
      case BatchContent(_) => BatchEqual(kind, c, d);
      case GovernanceContent(_, _, _, _, _, _) => GovernanceEqual(kind, c, d);
      case PolicyContent(_, _) => PolicyEqual(kind, c, d);
      case AssetPolicyContent(_, _, _, _, _, _) => PolicyEqual(kind, c, d);
      case ReleaseContent(_, _, _, _) => EscrowEqual(kind, c, d);
      case ReturnContent(_, _, _) => EscrowEqual(kind, c, d);
      case TradeContent(_, _, _, _, _, _, _, _, _, _) => TradeEqual(kind, c, d);
      case SessionContent(_, _, _, _, _, _, _, _) => SessionEqual(kind, c, d);
      case RiskContent(_, _, _, _) => RiskOrSettlementEqual(kind, c, d);
      case SettlementContent(_, _, _, _, _, _, _, _) => RiskOrSettlementEqual(kind, c, d);
      case RecurringContent(_, _, _, _, _, _, _) => RecurringEqual(kind, c, d);
    }
  }

  /** Within and across kinds: equal preimages have equal kinds and equal content, optional
      commitments included. */
  lemma PreimageInjective(kind: ActionKind, c: Content, kind': ActionKind, d: Content)
    requires Fits(kind, c) && Fits(kind', d) && Preimage(kind, c) == Preimage(kind', d)
    ensures kind == kind' && c == d
  {
    hide ContentBytes, Prefixed, Fits, ActionKind.FromCode;
    PrefixedEqual(PAYLOAD_DOMAIN, PAYLOAD_DOMAIN, [kind.Code()] + ContentBytes(c), [kind'.Code()] + ContentBytes(d));
    SplitEqual([kind.Code()], [kind'.Code()], ContentBytes(c), ContentBytes(d));
    assert [kind.Code()][0] == [kind'.Code()][0];
    assert ActionKind.FromCode(kind.Code()) == Ok(kind) && ActionKind.FromCode(kind'.Code()) == Ok(kind');
    ContentEqual(kind, c, d);
  }

  lemma {:induction false} RowContentsOk(sha: Sha, rows: seq<TransferRow>)
    requires forall i :: 0 <= i < |rows| ==> ValidateRow(rows[i]).Ok?
    ensures forall i :: 0 <= i < |rows| ==> RowOk(RowContents(sha, rows)[i])
  {
    hide ValidateVisibleAscii;
    if rows != [] {
      RowContentsOk(sha, rows[1..]);
    }
  }

  lemma AcceptedFits(sha: Sha, q: Request)
    requires Accepted(q)
    ensures Fits(q.body.Kind(), ContentOf(sha, q.body))
  {
    hide Visible, ValidateTexts, ValidateFiat, ValidateRow, RowOk, RowContentOf;
    RowContentsOk(sha, RowsOf(q.body));
    match q.body {
      case SendBody(row, _, _) => RowContentOk(sha, row);
      case EscrowReleaseBody(_, _, _, _, payment, _) => RowContentOk(sha, payment);
      case RecurringBody(_, payment, _, _, _, _, _) => RowContentOk(sha, payment);
      case _ =>
    }
  }

  lemma RowContentOk(sha: Sha, row: TransferRow)
    requires ValidateRow(row).Ok?
    ensures RowOk(RowContentOf(sha, row))
  {
    hide Visible;
  }

  /** Two accepted requests hash the same payload bytes exactly when they are of the same kind and
      authorise the same content. Fiat estimates, reasons, decimals, display names and titles are no
      part of it, and neither is whether identity bytes were given as text, key or digest. */
  lemma PayloadIffContent(sha: Sha, q: Request, q': Request)
    requires Accepted(q) && Accepted(q')
    ensures Preimage(q.body.Kind(), ContentOf(sha, q.body)) == Preimage(q'.body.Kind(), ContentOf(sha, q'.body))
            <==> q.body.Kind() == q'.body.Kind() && ContentOf(sha, q.body) == ContentOf(sha, q'.body)
  {
    hide Preimage, ContentOf, Fits, Accepted;
    AcceptedFits(sha, q);
    AcceptedFits(sha, q');
    if Preimage(q.body.Kind(), ContentOf(sha, q.body)) == Preimage(q'.body.Kind(), ContentOf(sha, q'.body)) {
      PreimageInjective(q.body.Kind(), ContentOf(sha, q.body), q'.body.Kind(), ContentOf(sha, q'.body));
    }
  }

  // ----- Envelope -----

  const ENVELOPE_DOMAIN: seq<byte> := Ascii("clearsig:policy-engine:v4")

  datatype EnvelopeFields = EnvelopeFields(
    kind: ActionKind, network: Network, proposalIndex: u64, walletName: seq<byte>, walletId: Bytes32,
    actor: Bytes32, actionId: Bytes32, nonce: Bytes32, expiresAt: i64, approvalRequired: byte,
    policyCommitment: Bytes32, payloadHash: Bytes32, clearTextHash: Bytes32)

  function ReplayBytes(f: EnvelopeFields): seq<byte> {
    Prefixed(f.walletId, Prefixed(f.actor, Prefixed(f.actionId, Prefixed(f.nonce,
    LE(Twos(f.expiresAt), 8) + ([f.approvalRequired]
    + (f.policyCommitment + (f.payloadHash + f.clearTextHash)))))))
  }

  function EnvelopeBytes(f: EnvelopeFields): seq<byte> {
    Prefixed(ENVELOPE_DOMAIN, [INTENT_VERSION] + ([f.kind.Code()] + ([f.network.Code()]
    + (LE(f.proposalIndex, 8) + Prefixed(f.walletName, ReplayBytes(f))))))
  }

  lemma ReplayEqual(f: EnvelopeFields, g: EnvelopeFields)
    requires ReplayBytes(f) == ReplayBytes(g)
    ensures g == f.(kind := g.kind, network := g.network, proposalIndex := g.proposalIndex, walletName := g.walletName)
  {
    hide LE, Prefixed, Pow;
    WordSizes();
    var f3, g3 := f.policyCommitment + (f.payloadHash + f.clearTextHash), g.policyCommitment + (g.payloadHash + g.clearTextHash);
    var f2, g2 := LE(Twos(f.expiresAt), 8) + ([f.approvalRequired] + f3), LE(Twos(g.expiresAt), 8) + ([g.approvalRequired] + g3);
    var f1, g1 := Prefixed(f.actionId, Prefixed(f.nonce, f2)), Prefixed(g.actionId, Prefixed(g.nonce, g2));
    PrefixedEqual(f.walletId, g.walletId, Prefixed(f.actor, f1), Prefixed(g.actor, g1));
    PrefixedEqual(f.actor, g.actor, f1, g1);
    PrefixedEqual(f.actionId, g.actionId, Prefixed(f.nonce, f2), Prefixed(g.nonce, g2));
    PrefixedEqual(f.nonce, g.nonce, f2, g2);
    WordEqual(Twos(f.expiresAt), Twos(g.expiresAt), 8, [f.approvalRequired] + f3, [g.approvalRequired] + g3);
    SplitEqual([f.approvalRequired], [g.approvalRequired], f3, g3);
    assert [f.approvalRequired][0] == [g.approvalRequired][0];
    SplitEqual(f.policyCommitment, g.policyCommitment, f.payloadHash + f.clearTextHash, g.payloadHash + g.clearTextHash);
    SplitEqual(f.payloadHash, g.payloadHash, f.clearTextHash, g.clearTextHash);
  }

  /** The envelope binds every one of its fields. */
  lemma EnvelopeInjective(f: EnvelopeFields, g: EnvelopeFields)
    requires |f.walletName| <= 64 && |g.walletName| <= 64 && EnvelopeBytes(f) == EnvelopeBytes(g)
    ensures f == g
  {
    hide LE, Prefixed, ReplayBytes, Pow;
    WordSizes();
    var f2, g2 := Prefixed(f.walletName, ReplayBytes(f)), Prefixed(g.walletName, ReplayBytes(g));
    var f1, g1 := [f.network.Code()] + (LE(f.proposalIndex, 8) + f2), [g.network.Code()] + (LE(g.proposalIndex, 8) + g2);
    PrefixedEqual(ENVELOPE_DOMAIN, ENVELOPE_DOMAIN, [INTENT_VERSION] + ([f.kind.Code()] + f1),
                  [INTENT_VERSION] + ([g.kind.Code()] + g1));
    SplitEqual([INTENT_VERSION], [INTENT_VERSION], [f.kind.Code()] + f1, [g.kind.Code()] + g1);
    SplitEqual([f.kind.Code()], [g.kind.Code()], f1, g1);
    SplitEqual([f.network.Code()], [g.network.Code()], LE(f.proposalIndex, 8) + f2, LE(g.proposalIndex, 8) + g2);
    WordEqual(f.proposalIndex, g.proposalIndex, 8, f2, g2);
    PrefixedEqual(f.walletName, g.walletName, ReplayBytes(f), ReplayBytes(g));
    assert [f.kind.Code()][0] == [g.kind.Code()][0] && [f.network.Code()][0] == [g.network.Code()][0];
    assert ActionKind.FromCode(f.kind.Code()) == Ok(f.kind) && ActionKind.FromCode(g.kind.Code()) == Ok(g.kind);
    assert Network.FromCode(f.network.Code()) == Ok(f.network) && Network.FromCode(g.network.Code()) == Ok(g.network);
    ReplayEqual(f, g);
  }

  // ----- Executor evidence -----

  const EVIDENCE_DOMAIN: seq<byte> := Ascii("clearsig:execution-evidence:v1")

  function PartsThen(parts: seq<seq<byte>>): seq<byte> {
    if parts == [] then [] else Prefixed(parts[0], PartsThen(parts[1..]))
  }

  function EvidenceBytes(parts: seq<seq<byte>>): seq<byte> {
    Prefixed(EVIDENCE_DOMAIN, LE(|parts| % 0x1_0000_0000, 4) + PartsThen(parts))
  }

  lemma {:induction false} PartsEqual(a: seq<seq<byte>>, b: seq<seq<byte>>)
    requires |a| == |b| && (forall p :: p in a || p in b ==> |p| < 0x1_0000_0000) && PartsThen(a) == PartsThen(b)
    ensures a == b
  {
    hide Prefixed;
    if a != [] {
      PrefixedEqual(a[0], b[0], PartsThen(a[1..]), PartsThen(b[1..]));
      PartsEqual(a[1..], b[1..]);
      assert a == [a[0]] + a[1..] && b == [b[0]] + b[1..];
    }
  }

  /** The evidence bytes determine the list of parts. */
  lemma EvidenceInjective(a: seq<seq<byte>>, b: seq<seq<byte>>)
    requires |a| < 0x1_0000_0000 && |b| < 0x1_0000_0000
    requires forall p :: p in a || p in b ==> |p| < 0x1_0000_0000
    requires EvidenceBytes(a) == EvidenceBytes(b)
    ensures a == b
  {
    hide LE, Prefixed, PartsThen, Pow;
    WordSizes();
    PrefixedEqual(EVIDENCE_DOMAIN, EVIDENCE_DOMAIN, LE(|a|, 4) + PartsThen(a), LE(|b|, 4) + PartsThen(b));
    WordEqual(|a|, |b|, 4, PartsThen(a), PartsThen(b));
    PartsEqual(a, b);
  }
}

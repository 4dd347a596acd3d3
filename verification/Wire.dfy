/** The canonical wire format: what each request is laid out as, and the pure form of the parser.
    Layouts are written with a tail, so that a field and what follows it never need regrouping. */
module Wire {
  import opened Base
  import opened Model

  const INTENT_MAGIC: seq<byte> := Ascii("CSIGINT4")
  const INTENT_VERSION: byte := 4

  // ----- Layout -----

  function Text16(v: seq<byte>, t: seq<byte>): (r: seq<byte>)
    ensures |r| == 2 + |v| + |t|
  {
    LE(|v|, 2) + (v + t)
  }

  function HeaderThen(profile: DeviceProfile, kind: ActionKind, network: Network, t: seq<byte>): seq<byte> {
    INTENT_MAGIC + ([INTENT_VERSION] + ([profile.Code()] + ([kind.Code()] + ([network.Code()] + t))))
  }

  function CommonThen(c: CommonFields, kind: ActionKind, t: seq<byte>): seq<byte> {
    HeaderThen(c.profile, kind, c.network,
    LE(c.proposalIndex, 8) + (c.walletId + (c.actor + (c.actionId + (c.nonce
    + (LE(Twos(c.expiresAt), 8) + (c.policyCommitment + ([c.approvalRequired] + t))))))))
  }

  function RowThen(row: TransferRow, t: seq<byte>): seq<byte> {
    [row.recipientEncoding.Code()] + Text16(row.recipient, [row.assetEncoding.Code()] + Text16(row.asset,
    LE(row.rawAmount, 16) + ([row.decimals] + Text16(row.displayAsset, t))))
  }

  function RowsThen(rows: seq<TransferRow>, t: seq<byte>): seq<byte> {
    if rows == [] then t else RowThen(rows[0], RowsThen(rows[1..], t))
  }

  function SignersThen(proposers: seq<Bytes32>, approvers: seq<Bytes32>, t: seq<byte>): seq<byte> {
    [|proposers| % 256] + (Flat(proposers) + ([|approvers| % 256] + (Flat(approvers) + t)))
  }

  function FiatThen(fiat: Option<FiatEstimate>, t: seq<byte>): seq<byte> {
    match fiat
    case None => [0] + t
    case Some(f) =>
      [1] + Text16(f.amount, Text16(f.currency, Text16(f.source, LE(Twos(f.observedAt), 8) + t)))
  }

  function Flat(keys: seq<Bytes32>): (r: seq<byte>)
    ensures |r| == 32 * |keys|
  {
    if keys == [] then [] else keys[0] + Flat(keys[1..])
  }

  function BodyThen(body: Body, t: seq<byte>): seq<byte> {
    match body
    case SendBody(row, commitment, fiat) => RowThen(row, commitment + FiatThen(fiat, t))
    case BatchBody(rows) => [|rows| % 256] + RowsThen(rows, t)
    case GovernanceBody(_, target, approval, cancellation, timelock, proposers, approvers) =>
      [target] + ([approval] + ([cancellation] + (LE(timelock, 4) + SignersThen(proposers, approvers, t))))
    case PolicyBody(chainKind, commitment) => [chainKind] + (commitment + t)
    case AssetPolicyBody(chainKind, scopeKind, decimals, mint, displayAsset, commitment) =>
      [chainKind] + ([scopeKind] + ([decimals] + (mint + Text16(displayAsset, commitment + t))))
    case EscrowReleaseBody(escrowId, escrowTitle, milestoneId, milestoneTitle, payment, commitment) =>
      Text16(escrowId, Text16(escrowTitle, Text16(milestoneId, Text16(milestoneTitle,
      RowThen(payment, commitment + t)))))
    case EscrowReturnBody(escrowId, escrowTitle, rows, commitment) =>
      Text16(escrowId, Text16(escrowTitle, [|rows| % 256] + RowsThen(rows, commitment + t)))
    case AgentTradeBody(agentId, venue, market, side, assetId, notional, leverage, sessionId, route, risk) =>
      Text16(agentId, Text16(venue, Text16(market, Text16(side, Text16(assetId, LE(notional, 16)
      + (LE(leverage, 4) + Text16(sessionId, Text16(route, risk + t))))))))
    case AgentSessionBody(sessionId, agentId, venue, market, notional, leverage, expiry, status) =>
      Text16(sessionId, Text16(agentId, Text16(venue, Text16(market, LE(notional, 16)
      + (LE(leverage, 4) + (LE(Twos(expiry), 8) + ([status] + t)))))))
    case AgentRiskBody(sessionId, oracle, maxLoss, status) =>
      Text16(sessionId, oracle + (LE(maxLoss, 16) + ([status] + t)))
    case AgentSettlementBody(sessionId, executionId, artifact, oracle, closed, outcome, pnl, sequence) =>
      Text16(sessionId, Text16(executionId, artifact + (oracle + (LE(closed, 16) + ([outcome]
      + (LE(pnl, 16) + (LE(sequence, 8) + t)))))))
    case RecurringBody(scheduleId, payment, commitment, interval, first, count, status) =>
      Text16(scheduleId, RowThen(payment, (if SplToken(payment) then commitment else [])
      + (LE(interval, 4) + (LE(Twos(first), 8) + (LE(count, 4) + ([status] + t))))))
  }

  /** The one byte string that stands for a request. */
  function Serialize(q: Request): seq<byte> {
    CommonThen(q.common, q.body.Kind(), BodyThen(q.body, Text16(q.reason, [])))
  }

  // ----- Reader primitives: a value and what is left -----

  type Read<+T> = Result<(T, seq<byte>), Error>

  function Take(b: seq<byte>, n: nat): (r: Read<seq<byte>>)
    ensures r.Ok? <==> |b| >= n
    ensures r.Ok? ==> |r.value.0| == n && b == r.value.0 + r.value.1
    ensures r.Err? ==> r.error == InvalidLength
  {
    if |b| < n then Err(InvalidLength) else Ok((b[..n], b[n..]))
  }

  function ReadU8(b: seq<byte>): (r: Read<byte>)
    ensures r.Ok? ==> b == [r.value.0] + r.value.1
  {
    var (v, rest) :- Take(b, 1);
    Ok((v[0], rest))
  }

  function ReadWord(b: seq<byte>, n: nat): (r: Read<nat>)
    ensures r.Ok? <==> |b| >= n
    ensures r.Ok? ==> r.value.0 < Pow(256, n) && b == LE(r.value.0, n) + r.value.1
  {
    var (v, rest) :- Take(b, n);
    FromLEBound(v);
    FromLERoundTrip(v);
    Ok((FromLE(v), rest))
  }

  function ReadU32(b: seq<byte>): (r: Read<u32>)
    ensures r.Ok? ==> b == LE(r.value.0, 4) + r.value.1
  {
    WordSizes();
    var (v, rest) :- ReadWord(b, 4);
    Ok((v, rest))
  }

  function ReadU64(b: seq<byte>): (r: Read<u64>)
    ensures r.Ok? ==> b == LE(r.value.0, 8) + r.value.1
  {
    WordSizes();
    var (v, rest) :- ReadWord(b, 8);
    Ok((v, rest))
  }

  function ReadU128(b: seq<byte>): (r: Read<u128>)
    ensures r.Ok? ==> b == LE(r.value.0, 16) + r.value.1
  {
    WordSizes();
    var (v, rest) :- ReadWord(b, 16);
    Ok((v, rest))
  }

  function ReadI64(b: seq<byte>): (r: Read<i64>)
    ensures r.Ok? ==> b == LE(Twos(r.value.0), 8) + r.value.1
  {
    var (v, rest) :- ReadU64(b);
    Ok((FromTwos(v), rest))
  }

  function ReadArray32(b: seq<byte>): (r: Read<Bytes32>)
    ensures r.Ok? ==> b == r.value.0 + r.value.1
  {
    var (v, rest) :- Take(b, 32);
    Ok((v, rest))
  }

  function ReadBytes(b: seq<byte>, max: nat): (r: Read<seq<byte>>)
    ensures r.Ok? ==> |r.value.0| <= max && |r.value.0| < 0x1_0000 && b == Text16(r.value.0, r.value.1)
  {
    WordSizes();
    var (n, rest) :- ReadWord(b, 2);
    if n > max then Err(InvalidLength) else Take(rest, n)
  }

  function ReadAscii(b: seq<byte>, max: nat): (r: Read<seq<byte>>)
    ensures r.Ok? ==> b == Text16(r.value.0, r.value.1) && ValidateVisibleAscii(r.value.0, max, false).Ok?
  {
    var (v, rest) :- ReadBytes(b, max);
    var _ :- ValidateVisibleAscii(v, max, false);
    Ok((v, rest))
  }

  // ----- The parser -----

  function ParseRow(b: seq<byte>): (r: Read<TransferRow>)
    ensures r.Ok? ==> b == RowThen(r.value.0, r.value.1) && ValidateRow(r.value.0).Ok?
  {
    var (rc, b) :- ReadU8(b);
    var recipientEncoding :- IdentityEncoding.FromCode(rc);
    var (recipient, b) :- ReadBytes(b, MAX_IDENTITY_BYTES);
    var (ac, b) :- ReadU8(b);
    var assetEncoding :- IdentityEncoding.FromCode(ac);
    var (asset, b) :- ReadBytes(b, MAX_ASSET_BYTES);
    var (rawAmount, b) :- ReadU128(b);
    var (decimals, b) :- ReadU8(b);
    var (displayAsset, b) :- ReadBytes(b, 24);
    var row := TransferRow(recipientEncoding, recipient, assetEncoding, asset, rawAmount, decimals, displayAsset);
    var _ :- ValidateRow(row);
    Ok((row, b))
  }

  function ParseRows(b: seq<byte>, n: nat): (r: Read<seq<TransferRow>>)
    ensures r.Ok? ==> |r.value.0| == n && b == RowsThen(r.value.0, r.value.1)
    ensures r.Ok? ==> forall i :: 0 <= i < n ==> ValidateRow(r.value.0[i]).Ok?
    decreases n
  {
    hide ParseRow, RowThen, ValidateRow;
    if n == 0 then Ok(([], b)) else
    var (row, b1) :- ParseRow(b);
    var (rows, b2) :- ParseRows(b1, n - 1);
    assert b == RowThen(row, RowsThen(rows, b2));
    assert ([row] + rows)[0] == row && ([row] + rows)[1..] == rows;
    Ok(([row] + rows, b2))
  }

  function ParseFiat(b: seq<byte>): (r: Read<Option<FiatEstimate>>)
    ensures r.Ok? ==> b == FiatThen(r.value.0, r.value.1) && ValidateOptionalFiat(r.value.0).Ok?
  {
    var (tag, b) :- ReadU8(b);
    if tag == 0 then Ok((None, b))
    else if tag != 1 then Err(InvalidEncoding)
    else
      var (amount, b) :- ReadAscii(b, 32);
      var (currency, b) :- ReadAscii(b, 8);
      var (source, b) :- ReadAscii(b, 64);
      var (observedAt, b) :- ReadI64(b);
      var f := FiatEstimate(amount, currency, source, observedAt);
      var _ :- ValidateFiat(f);
      Ok((Some(f), b))
  }

  function Chunks(s: seq<byte>): (r: seq<Bytes32>)
    requires |s| % 32 == 0
    ensures Flat(r) == s
  {
    if s == [] then [] else
    var key: Bytes32, rest := s[..32], Chunks(s[32..]);
    assert ([key] + rest)[1..] == rest;
    [key] + rest
  }

  function ParseKeys(b: seq<byte>, n: nat): (r: Read<seq<Bytes32>>)
    ensures r.Ok? ==> |r.value.0| == n && b == Flat(r.value.0) + r.value.1
  {
    var (keys, b) :- Take(b, n * 32);
    Ok((Chunks(keys), b))
  }

  ghost predicate Parsed(b: seq<byte>, network: Network, kind: ActionKind, r: Read<Body>) {
    r.Ok? ==>
      && var (body, rest) := r.value;
      && b == BodyThen(body, rest)
      && body.Kind() == kind
      && ValidateBody(body, network).Ok?
      && (body.SendBody? ==> ValidateOptionalFiat(body.fiat).Ok?)
      && forall i :: 0 <= i < |RowsOf(body)| ==> ValidateRow(RowsOf(body)[i]).Ok?
  }

  function ParseSend(b: seq<byte>, network: Network): (r: Read<Body>)
    ensures Parsed(b, network, Send, r)
  {
    var (row, b) :- ParseRow(b);
    var (commitment, b) :- ReadArray32(b);
    var (fiat, b) :- ParseFiat(b);
    Ok((SendBody(row, commitment, fiat), b))
  }

  function ParseBatch(b: seq<byte>, network: Network): (r: Read<Body>)
    ensures Parsed(b, network, BatchSend, r)
  {
    hide ParseRow, RowThen, ValidateRow, ReadWord, RowsThen, ParseRows;
    var (n, b) :- ReadU8(b);
    var _ :- Need(1 <= n <= 16, InvalidLength);
    var (rows, b) :- ParseRows(b, n);
    Ok((BatchBody(rows), b))
  }

  function ParseGovernance(b: seq<byte>, network: Network, kind: ActionKind): (r: Read<Body>)
    requires IsGovernance(kind)
    ensures Parsed(b, network, kind, r)
  {
    hide LE, ReadWord, ReadU8, ReadU32, Flat, Take, ParseSigners, SignersThen, IsGovernance, ValidateRow, ValidateFiat, ValidateTexts, Visible, ValidateVisibleAscii;
    var (target, b) :- ReadU8(b);
    var (approval, b) :- ReadU8(b);
    var (cancellation, b) :- ReadU8(b);
    var (timelock, b) :- ReadU32(b);
    ParseSigners(b, kind, target, approval, cancellation, timelock)
  }

  function ParseSigners(b: seq<byte>, kind: ActionKind, target: byte, approval: byte, cancellation: byte,
                        timelock: u32): (r: Read<Body>)
    ensures r.Ok? ==>
      var (body, rest) := r.value;
      && body.GovernanceBody?
      && body == GovernanceBody(kind, target, approval, cancellation, timelock, body.proposers, body.approvers)
      && 1 <= |body.proposers| <= 16 && 1 <= |body.approvers| <= 16
      && 1 <= approval <= |body.approvers| && 1 <= cancellation <= |body.approvers|
      && b == SignersThen(body.proposers, body.approvers, rest)
  {
    hide LE, ReadWord, Flat, Take, Chunks;
    var (n, b) :- ReadU8(b);
    var _ :- Need(1 <= n <= 16, InvalidContext);
    var (proposers, b) :- ParseKeys(b, n);
    var (m, b) :- ReadU8(b);
    var _ :- Need(1 <= m <= 16 && 1 <= approval <= m && 1 <= cancellation <= m, InvalidContext);
    var (approvers, b) :- ParseKeys(b, m);
    Ok((GovernanceBody(kind, target, approval, cancellation, timelock, proposers, approvers), b))
  }

  function ParsePolicy(b: seq<byte>, network: Network): (r: Read<Body>)
    ensures Parsed(b, network, SetProtection, r)
  {
    var (chainKind, b) :- ReadU8(b);
    var (commitment, b) :- ReadArray32(b);
    var _ :- Need(chainKind == network.ChainKind(), InvalidContext);
    Ok((PolicyBody(chainKind, commitment), b))
  }

  function ParseAssetPolicy(b: seq<byte>, network: Network): (r: Read<Body>)
    ensures Parsed(b, network, SetAssetProtection, r)
  {
    hide LE, ReadWord, ReadBytes, ReadAscii, ReadArray32, ValidateVisibleAscii;
    var (chainKind, b) :- ReadU8(b);
    var (scopeKind, b) :- ReadU8(b);
    var (decimals, b) :- ReadU8(b);
    var (mint, b) :- ReadArray32(b);
    var (displayAsset, b) :- ReadAscii(b, 16);
    var (commitment, b) :- ReadArray32(b);
    var _ :- Need(chainKind == network.ChainKind() && scopeKind == 1 && decimals <= 18 && !IsZero(mint),
                  InvalidContext);
    Ok((AssetPolicyBody(chainKind, scopeKind, decimals, mint, displayAsset, commitment), b))
  }

  function ParseEscrowRelease(b: seq<byte>, network: Network): (r: Read<Body>)
    ensures Parsed(b, network, ReleaseMilestone, r)
  {
    hide LE, ReadWord, ReadBytes, ReadAscii, ReadArray32, ValidateVisibleAscii, ParseRow, RowThen, ValidateRow;
    var (escrowId, b) :- ReadAscii(b, 96);
    var (escrowTitle, b) :- ReadAscii(b, 96);
    var (milestoneId, b) :- ReadAscii(b, 96);
    var (milestoneTitle, b) :- ReadAscii(b, 96);
    var (payment, b) :- ParseRow(b);
    var (commitment, b) :- ReadArray32(b);
    Ok((EscrowReleaseBody(escrowId, escrowTitle, milestoneId, milestoneTitle, payment, commitment), b))
  }

  function ParseEscrowReturn(b: seq<byte>, network: Network): (r: Read<Body>)
    ensures Parsed(b, network, ReturnEscrowFunds, r)
  {
    hide LE, ReadWord, ReadBytes, ReadAscii, ReadArray32, ValidateVisibleAscii, ParseRow, RowThen, ValidateRow, RowsThen, ParseRows;
    var (escrowId, b) :- ReadAscii(b, 96);
    var (escrowTitle, b) :- ReadAscii(b, 96);
    var (n, b) :- ReadU8(b);
    var _ :- Need(1 <= n <= 16, InvalidLength);
    var (rows, b) :- ParseRows(b, n);
    var (commitment, b) :- ReadArray32(b);
    Ok((EscrowReturnBody(escrowId, escrowTitle, rows, commitment), b))
  }

  function ParseAgentTrade(b: seq<byte>, network: Network): (r: Read<Body>)
    ensures Parsed(b, network, AgentTradeApproval, r)
  {
    hide LE, ReadWord, ReadBytes, ReadAscii, ReadArray32, ValidateVisibleAscii;
    var (agentId, b) :- ReadAscii(b, 96);
    var (venue, b) :- ReadAscii(b, 96);
    var (market, b) :- ReadAscii(b, 96);
    var (side, b) :- ReadAscii(b, 96);
    var (assetId, b) :- ReadAscii(b, 96);
    ParseTradeLimits(b, agentId, venue, market, side, assetId)
  }

  function ParseTradeLimits(b: seq<byte>, agentId: seq<byte>, venue: seq<byte>, market: seq<byte>,
                            side: seq<byte>, assetId: seq<byte>): Read<Body> {
    var (notional, b) :- ReadU128(b);
    var (leverage, b) :- ReadU32(b);
    var (sessionId, b) :- ReadAscii(b, 96);
    var (route, b) :- ReadAscii(b, 96);
    var (risk, b) :- ReadArray32(b);
    var _ :- Need((side == Ascii("long") || side == Ascii("short")) && notional != 0 && leverage != 0,
                  InvalidAmount);
    Ok((AgentTradeBody(agentId, venue, market, side, assetId, notional, leverage, sessionId, route, risk), b))
  }

  function ParseAgentSession(b: seq<byte>, network: Network): (r: Read<Body>)
    ensures Parsed(b, network, AgentSessionGrant, r)
  {
    hide LE, ReadWord, ReadBytes, ReadAscii, ReadArray32, ValidateVisibleAscii;
    var (sessionId, b) :- ReadAscii(b, 96);
    var (agentId, b) :- ReadAscii(b, 96);
    var (venue, b) :- ReadAscii(b, 96);
    var (market, b) :- ReadAscii(b, 96);
    ParseSessionLimits(b, sessionId, agentId, venue, market)
  }

  function ParseSessionLimits(b: seq<byte>, sessionId: seq<byte>, agentId: seq<byte>, venue: seq<byte>,
                              market: seq<byte>): Read<Body> {
    var (notional, b) :- ReadU128(b);
    var (leverage, b) :- ReadU32(b);
    var (expiry, b) :- ReadI64(b);
    var (status, b) :- ReadU8(b);
    var _ :- Need(notional != 0 && leverage != 0 && 1 <= status <= 2, InvalidContext);
    Ok((AgentSessionBody(sessionId, agentId, venue, market, notional, leverage, expiry, status), b))
  }

  function ParseAgentRisk(b: seq<byte>, network: Network): (r: Read<Body>)
    ensures Parsed(b, network, AgentRiskPolicy, r)
  {
    hide LE, ReadWord, ReadU128, ReadBytes, ReadAscii, ReadArray32, ValidateVisibleAscii;
    var (sessionId, b) :- ReadAscii(b, 96);
    var (oracle, b) :- ReadArray32(b);
    var (maxLoss, b) :- ReadU128(b);
    var (status, b) :- ReadU8(b);
    var _ :- Need(1 <= status <= 2 && (status == 1 ==> maxLoss != 0), InvalidContext);
    Ok((AgentRiskBody(sessionId, oracle, maxLoss, status), b))
  }

  function ParseAgentSettlement(b: seq<byte>, network: Network): (r: Read<Body>)
    ensures Parsed(b, network, AgentTradeSettlement, r)
  {
    hide LE, ReadWord, ReadU128, ReadU64, ReadBytes, ReadAscii, ReadArray32, ValidateVisibleAscii;
    var (sessionId, b) :- ReadAscii(b, 96);
    var (executionId, b) :- ReadAscii(b, 96);
    var (artifact, b) :- ReadArray32(b);
    var (oracle, b) :- ReadArray32(b);
    var (closed, b) :- ReadU128(b);
    var (outcome, b) :- ReadU8(b);
    var (pnl, b) :- ReadU128(b);
    var (sequence, b) :- ReadU64(b);
    var _ :- Need(closed != 0 && 1 <= outcome <= 3 && (outcome == 3 <==> pnl == 0), InvalidAmount);
    Ok((AgentSettlementBody(sessionId, executionId, artifact, oracle, closed, outcome, pnl, sequence), b))
  }

  function ParseRecurring(b: seq<byte>, network: Network): (r: Read<Body>)
    ensures Parsed(b, network, RecurringSchedule, r)
  {
    hide LE, ReadWord, ReadBytes, ReadAscii, ReadArray32, ValidateVisibleAscii, ParseRow, RowThen, ValidateRow;
    var (scheduleId, b) :- ReadAscii(b, 96);
    var (payment, b) :- ParseRow(b);
    var _ :- Need(NativeSol(payment) || SplToken(payment), InvalidContext);
    var (commitment, b) :- ParseCommitment(b, SplToken(payment));
    ParseTerms(b, scheduleId, payment, commitment)
  }

  function ParseTerms(b: seq<byte>, scheduleId: seq<byte>, payment: TransferRow, commitment: Bytes32): Read<Body> {
    var (interval, b) :- ReadU32(b);
    var (first, b) :- ReadI64(b);
    var (count, b) :- ReadU32(b);
    var (status, b) :- ReadU8(b);
    var _ :- Need(interval >= 3600 && 1 <= count <= 1000 && 1 <= status <= 2, InvalidContext);
    Ok((RecurringBody(scheduleId, payment, commitment, interval, first, count, status), b))
  }

  /** Present, and then not zero, exactly for SPL tokens. */
  function ParseCommitment(b: seq<byte>, present: bool): (r: Read<Bytes32>)
    ensures r.Ok? ==> b == (if present then r.value.0 else []) + r.value.1
    ensures r.Ok? ==> (present <==> !IsZero(r.value.0))
  {
    if !present then
      assert [] + b == b;
      Ok((ZERO32, b))
    else
      var (value, b) :- ReadArray32(b);
      var _ :- Need(!IsZero(value), InvalidContext);
      Ok((value, b))
  }

  function ParseBody(b: seq<byte>, kind: ActionKind, network: Network): (r: Read<Body>)
    ensures Parsed(b, network, kind, r)
  {
    match kind
    case Send => ParseSend(b, network)
    case BatchSend => ParseBatch(b, network)
    case AddMember | RemoveMember | ChangeThreshold => ParseGovernance(b, network, kind)
    case SetProtection => ParsePolicy(b, network)
    case SetAssetProtection => ParseAssetPolicy(b, network)
    case ReleaseMilestone => ParseEscrowRelease(b, network)
    case ReturnEscrowFunds => ParseEscrowReturn(b, network)
    case AgentTradeApproval => ParseAgentTrade(b, network)
    case AgentSessionGrant => ParseAgentSession(b, network)
    case AgentRiskPolicy => ParseAgentRisk(b, network)
    case AgentTradeSettlement => ParseAgentSettlement(b, network)
    case RecurringSchedule => ParseRecurring(b, network)
    case RecoveryAction | SwapIntent => Err(UnsupportedAction)
  }

  function ParseHeader(b: seq<byte>): (r: Read<(DeviceProfile, ActionKind, Network)>)
    ensures r.Ok? ==> var ((profile, kind, network), rest) := r.value; b == HeaderThen(profile, kind, network, rest)
  {
    var (magic, b) :- Take(b, 8);
    var _ :- Need(magic == INTENT_MAGIC, InvalidMagic);
    var (version, b) :- ReadU8(b);
    var _ :- Need(version == INTENT_VERSION, UnsupportedVersion);
    var (pc, b) :- ReadU8(b);
    var profile :- DeviceProfile.FromCode(pc);
    var (kc, b) :- ReadU8(b);
    var kind :- ActionKind.FromCode(kc);
    var (nc, b) :- ReadU8(b);
    var network :- Network.FromCode(nc);
    Ok(((profile, kind, network), b))
  }

  function ParseCommon(b: seq<byte>): (r: Read<(CommonFields, ActionKind)>)
    ensures r.Ok? ==>
      var ((common, kind), rest) := r.value;
      b == CommonThen(common, kind, rest) && ValidateApproval(common.approvalRequired).Ok?
  {
    var ((profile, kind, network), b) :- ParseHeader(b);
    var (proposalIndex, b) :- ReadU64(b);
    var (walletId, b) :- ReadArray32(b);
    var (actor, b) :- ReadArray32(b);
    var (actionId, b) :- ReadArray32(b);
    var (nonce, b) :- ReadArray32(b);
    var (expiresAt, b) :- ReadI64(b);
    var (policyCommitment, b) :- ReadArray32(b);
    var (approvalRequired, b) :- ReadU8(b);
    var _ :- ValidateApproval(approvalRequired);
    Ok(((CommonFields(profile, network, proposalIndex, walletId, actor, actionId, nonce, expiresAt,
                      policyCommitment, approvalRequired), kind), b))
  }

  /** `parse_intent`, with rows and estimates already decoded. Whatever it accepts is the layout of
      an acceptable request. */
  function Parse(b: seq<byte>): (r: Result<Request, Error>)
    ensures r.Ok? ==> Accepted(r.value) && b == Serialize(r.value) && |b| <= MAX_CANONICAL_INTENT_BYTES
  {
    var _ :- Need(|b| <= MAX_CANONICAL_INTENT_BYTES, InvalidLength);
    var ((common, kind), rest) :- ParseCommon(b);
    var (body, rest) :- ParseBody(rest, kind, common.network);
    var (reason, rest) :- ReadBytes(rest, MAX_REASON_BYTES);
    var _ :- ValidateVisibleAscii(reason, MAX_REASON_BYTES, true);
    var _ :- Need(rest == [], TrailingBytes);
    Ok(Request(common, body, reason))
  }

  /** The slices the parser keeps for a decoded body. */
  function ActionOf(body: Body): Action {
    match body
    case SendBody(row, commitment, fiat) => TransferAction(row, commitment, FiatThen(fiat, []))
    case BatchBody(rows) => BatchAction(RowsThen(rows, []), |rows| % 256)
    case GovernanceBody(kind, target, approval, cancellation, timelock, proposers, approvers) =>
      GovernanceAction(kind, target, approval, cancellation, timelock,
                       Flat(proposers), |proposers| % 256, Flat(approvers), |approvers| % 256)
    case EscrowReturnBody(escrowId, escrowTitle, rows, commitment) =>
      EscrowReturnAction(escrowId, escrowTitle, RowsThen(rows, []), |rows| % 256, commitment)
    case _ => DirectAction(body)
  }

  function IntentOf(q: Request): Intent {
    Intent(q.common, ActionOf(q.body), q.reason, Serialize(q))
  }

  // ----- The encoders -----

  /** The row loop: each row is checked and then written behind `used` earlier bytes. */
  function RowsFit(rows: seq<TransferRow>, used: nat, capacity: nat): Result<nat, Error> {
    if rows == [] then Ok(used) else
    var _ :- ValidateRow(rows[0]);
    var used' := used + |RowThen(rows[0], [])|;
    var _ :- Need(used' <= capacity, BufferTooSmall);
    RowsFit(rows[1..], used', capacity)
  }

  /** What a body writes before its first row. */
  function BodyHead(body: Body): seq<byte> {
    match body
    case EscrowReturnBody(escrowId, escrowTitle, rows, _) =>
      Text16(escrowId, Text16(escrowTitle, [|rows| % 256]))
    case _ => [|RowsOf(body)| % 256]
  }

  /** Writing a body behind `used` earlier bytes. Rows are checked between writes, so a short buffer
      can be reported before a bad row. */
  function BodyFits(body: Body, used: nat, capacity: nat): Check {
    var rows := RowsOf(body);
    var head := used + |BodyHead(body)|;
    var _ :- Need(rows != [] ==> head <= capacity, BufferTooSmall);
    var _ :- RowsFit(rows, if rows == [] then 0 else head, capacity);
    Need(used + |BodyThen(body, [])| <= capacity, BufferTooSmall)
  }

  /** The `encode_*` functions, writing into a buffer of `capacity` bytes. */
  function Encode(q: Request, capacity: nat): Result<seq<byte>, Error> {
    var _ :- ValidateRequest(q);
    var _ :- Need(189 <= capacity, BufferTooSmall);
    var _ :- BodyFits(q.body, 189, capacity);
    var _ :- Need(|Serialize(q)| <= capacity, BufferTooSmall);
    Ok(Serialize(q))
  }

  /** `BatchRows`: decode up to `n` rows, stopping at the first that does not decode. */
  function Rows(encoded: seq<byte>, n: nat): seq<TransferRow>
    decreases n
  {
    if n == 0 then [] else
    match ParseRow(encoded)
    case Err(_) => []
    case Ok((row, rest)) => [row] + Rows(rest, n - 1)
  }
}

/** Which requests are acceptable, said field by field, and how everything else is refused. */
module Acceptance {
  import opened Base
  import opened Model
  import opened Wire
  import opened Schema
  import CodecLaws

  // ----- The code tables -----

  const KINDS: seq<ActionKind> := [
    Send, BatchSend, AddMember, RemoveMember, ChangeThreshold, SetProtection, ReleaseMilestone, ReturnEscrowFunds,
    AgentTradeApproval, RecoveryAction, SwapIntent, AgentSessionGrant, AgentRiskPolicy, AgentTradeSettlement,
    RecurringSchedule, SetAssetProtection]

  const NETWORKS: seq<(Network, byte, string)> := [
    (SolanaDevnet, 0, "Solana Devnet"), (EthereumSepolia, 1, "Ethereum Sepolia"), (BitcoinTestnet, 2, "Bitcoin Testnet"),
    (BitcoinSignet, 2, "Bitcoin Signet"), (BitcoinTestnet4, 2, "Bitcoin Testnet4"), (ZcashTestnet, 3, "Zcash Testnet"),
    (HyperliquidTestnet, 5, "Hyperliquid Testnet"), (EthereumSepoliaErc20, 4, "Ethereum Sepolia")]

  /** Codes count from one in the order of declaration, and each network has its chain and its name. */
  lemma CodesInOrder()
    ensures |KINDS| == 16 && forall i :: 0 <= i < 16 ==> KINDS[i].Code() == i + 1
    ensures |NETWORKS| == 8
    ensures forall i :: 0 <= i < 8 ==> NETWORKS[i].0.Code() == i + 1 && NETWORKS[i].0.ChainKind() == NETWORKS[i].1
                                       && NETWORKS[i].0.DisplayName() == NETWORKS[i].2
    ensures [Text.Code(), SolanaPubkey.Code(), Sha256Text.Code()] == [1, 2, 3]
    ensures [Full.Code(), LedgerSolana.Code()] == [1, 2]
  {
  }

  // ----- Acceptable fields -----

  /** Visible ASCII of bounded length. */
  predicate Plain(s: seq<byte>, least: nat, most: nat) {
    least <= |s| <= most && forall i :: 0 <= i < |s| ==> 0x20 <= s[i] <= 0x7e
  }

  predicate IdentityGood(encoding: IdentityEncoding, value: seq<byte>, most: nat) {
    if encoding == SolanaPubkey then |value| == 32 else Plain(value, 1, most)
  }

  predicate RowGood(r: TransferRow) {
    && IdentityGood(r.recipientEncoding, r.recipient, 192) && IdentityGood(r.assetEncoding, r.asset, 96)
    && Plain(r.displayAsset, 1, 24) && r.rawAmount >= 1 && r.decimals <= 36
  }

  /** Digits and at most one dot, with a digit at either end. */
  predicate AmountGood(s: seq<byte>) {
    && s != [] && s[0] != 0x2e && s[|s| - 1] != 0x2e
    && (forall i :: 0 <= i < |s| ==> 0x30 <= s[i] <= 0x39 || s[i] == 0x2e)
    && forall i, j :: 0 <= i < j < |s| ==> s[i] != 0x2e || s[j] != 0x2e
  }

  predicate EstimateGood(f: FiatEstimate) {
    Plain(f.amount, 1, 32) && Plain(f.currency, 1, 8) && Plain(f.source, 1, 64) && f.observedAt >= 1 && AmountGood(f.amount)
  }

  predicate RowsGood(rows: seq<TransferRow>) {
    1 <= |rows| <= 16 && forall i :: 0 <= i < |rows| ==> RowGood(rows[i])
  }

  predicate PresentOrNot(c: Bytes32, present: bool) { present <==> exists i :: 0 <= i < 32 && c[i] != 0 }

  predicate BodyGood(body: Body, network: Network) {
    match body
    case SendBody(row, _, fiat) => RowGood(row) && (fiat.Some? ==> EstimateGood(fiat.value))
    case BatchBody(rows) => RowsGood(rows)
    case GovernanceBody(kind, _, approval, cancellation, _, proposers, approvers) =>
      && 3 <= kind.Code() <= 5 && 1 <= |proposers| <= 16 && 1 <= |approvers| <= 16
      && 1 <= approval <= |approvers| && 1 <= cancellation <= |approvers|
    case PolicyBody(chainKind, _) => chainKind == network.ChainKind()
    case AssetPolicyBody(chainKind, scopeKind, decimals, mint, displayAsset, _) =>
      chainKind == network.ChainKind() && scopeKind == 1 && decimals <= 18 && PresentOrNot(mint, true) && Plain(displayAsset, 1, 16)
    case EscrowReleaseBody(escrowId, escrowTitle, milestoneId, milestoneTitle, payment, _) =>
      Plain(escrowId, 1, 96) && Plain(escrowTitle, 1, 96) && Plain(milestoneId, 1, 96) && Plain(milestoneTitle, 1, 96) && RowGood(payment)
    case EscrowReturnBody(escrowId, escrowTitle, rows, _) => Plain(escrowId, 1, 96) && Plain(escrowTitle, 1, 96) && RowsGood(rows)
    case AgentTradeBody(agentId, venue, market, side, assetId, notional, leverage, sessionId, route, _) =>
      && Plain(agentId, 1, 96) && Plain(venue, 1, 96) && Plain(market, 1, 96) && Plain(assetId, 1, 96)
      && Plain(sessionId, 1, 96) && Plain(route, 1, 96)
      && (side == [0x6c, 0x6f, 0x6e, 0x67] || side == [0x73, 0x68, 0x6f, 0x72, 0x74]) && notional >= 1 && leverage >= 1
    case AgentSessionBody(sessionId, agentId, venue, market, notional, leverage, _, status) =>
      && Plain(sessionId, 1, 96) && Plain(agentId, 1, 96) && Plain(venue, 1, 96) && Plain(market, 1, 96)
      && notional >= 1 && leverage >= 1 && (status == 1 || status == 2)
    case AgentRiskBody(sessionId, _, maxLoss, status) =>
      Plain(sessionId, 1, 96) && ((status == 1 && maxLoss >= 1) || status == 2)
    case AgentSettlementBody(sessionId, executionId, _, _, closed, outcome, pnl, _) =>
      && Plain(sessionId, 1, 96) && Plain(executionId, 1, 96) && closed >= 1
      && (((outcome == 1 || outcome == 2) && pnl >= 1) || (outcome == 3 && pnl == 0))
    case RecurringBody(scheduleId, payment, commitment, interval, _, count, status) =>
      && Plain(scheduleId, 1, 96) && RowGood(payment)
      && ((payment.asset == [0x53, 0x4f, 0x4c] && payment.assetEncoding == Text && payment.decimals == 9 && PresentOrNot(commitment, false))
          || (payment.assetEncoding == SolanaPubkey && payment.decimals <= 18 && PresentOrNot(commitment, true)))
      && interval >= 3600 && 1 <= count <= 1000 && (status == 1 || status == 2)
  }

  predicate Acceptable(q: Request) {
    BodyGood(q.body, q.common.network) && Plain(q.reason, 0, 160) && 1 <= q.common.approvalRequired <= 16
  }

  lemma PlainIff(s: seq<byte>, most: nat)
    ensures ValidateVisibleAscii(s, most, false).Ok? <==> Plain(s, 1, most)
    ensures ValidateVisibleAscii(s, most, true).Ok? <==> Plain(s, 0, most)
  {
  }

  lemma RowIff(r: TransferRow)
    ensures ValidateRow(r).Ok? <==> RowGood(r)
  {
    hide ValidateVisibleAscii;
    PlainIff(r.recipient, 192);
    PlainIff(r.asset, 96);
    PlainIff(r.displayAsset, 24);
  }

  lemma Rows(rows: seq<TransferRow>)
    ensures (forall i :: 0 <= i < |rows| ==> ValidateRow(rows[i]).Ok?) <==> forall i :: 0 <= i < |rows| ==> RowGood(rows[i])
  {
    hide ValidateRow, RowGood;
    forall i | 0 <= i < |rows| ensures ValidateRow(rows[i]).Ok? <==> RowGood(rows[i]) { RowIff(rows[i]); }
  }

  lemma {:induction false} DotsAre(s: seq<byte>)
    ensures Dots(s) <= 1 <==> forall i, j :: 0 <= i < j < |s| ==> s[i] != 0x2e || s[j] != 0x2e
    ensures Dots(s) == 0 <==> forall i :: 0 <= i < |s| ==> s[i] != 0x2e
  {
    if s != [] {
      DotsAre(s[1..]);
      assert forall i :: 0 < i < |s| ==> s[i] == s[1..][i - 1];
      assert forall i :: 0 <= i < |s| - 1 ==> s[1..][i] == s[i + 1];
    }
  }

  lemma EstimateIff(f: FiatEstimate)
    ensures ValidateFiat(f).Ok? <==> EstimateGood(f)
  {
    hide ValidateVisibleAscii, Dots;
    PlainIff(f.amount, 32);
    PlainIff(f.currency, 8);
    PlainIff(f.source, 64);
    DotsAre(f.amount);
  }

  lemma PresentIff(c: Bytes32)
    ensures PresentOrNot(c, true) <==> !IsZero(c)
    ensures PresentOrNot(c, false) <==> IsZero(c)
  {
    assert c == ZERO32 <==> forall i :: 0 <= i < 32 ==> c[i] == ZERO32[i];
  }

  lemma Sides()
    ensures Ascii("long") == [0x6c, 0x6f, 0x6e, 0x67] && Ascii("short") == [0x73, 0x68, 0x6f, 0x72, 0x74] && Ascii("SOL") == [0x53, 0x4f, 0x4c]
  {
  }

  lemma TextsIff(values: seq<seq<byte>>)
    ensures ValidateTexts(values).Ok? <==> forall i :: 0 <= i < |values| ==> Plain(values[i], 1, 96)
  {
    hide ValidateVisibleAscii, Plain;
    forall i | 0 <= i < |values|
      ensures ValidateVisibleAscii(values[i], 96, false).Ok? <==> Plain(values[i], 1, 96)
    {
      PlainIff(values[i], 96);
    }
  }

  lemma KindIff(kind: ActionKind)
    ensures IsGovernance(kind) <==> 3 <= kind.Code() <= 5
  {
  }

  lemma PaymentIff(body: Body, network: Network)
    requires body.SendBody? || body.EscrowReleaseBody? || body.RecurringBody?
    ensures CodecLaws.BodyOk(body, network) <==> BodyGood(body, network)
  {
    hide ValidateVisibleAscii, Plain, ValidateRow, RowGood, ValidateFiat, EstimateGood, IsZero, PresentOrNot, Ascii;
    match body {
      case SendBody(row, _, fiat) =>
        RowIff(row);
        if fiat.Some? {
          EstimateIff(fiat.value);
        }
      case EscrowReleaseBody(escrowId, escrowTitle, milestoneId, milestoneTitle, payment, _) =>
        PlainIff(escrowId, 96);
        PlainIff(escrowTitle, 96);
        PlainIff(milestoneId, 96);
        PlainIff(milestoneTitle, 96);
        RowIff(payment);
      case RecurringBody(scheduleId, payment, commitment, _, _, _, _) =>
        PlainIff(scheduleId, 96);
        RowIff(payment);
        KeyLength(payment);
        PresentIff(commitment);
        Sides();
    }
  }

  lemma KeyLength(r: TransferRow)
    ensures RowGood(r) && r.assetEncoding == SolanaPubkey ==> |r.asset| == 32
  {
    hide Plain;
  }

  lemma TradeIff(body: Body, network: Network)
    requires body.AgentTradeBody?
    ensures CodecLaws.BodyOk(body, network) <==> BodyGood(body, network)
  {
    hide ValidateVisibleAscii, Ascii, ValidateTexts, Plain;
    var texts := [body.agentId, body.venue, body.market, body.side, body.assetId, body.sessionId, body.route];
    TextsIff(texts);
    assert ValidateTexts(texts).Ok?
      <==> Plain(texts[0], 1, 96) && Plain(texts[1], 1, 96) && Plain(texts[2], 1, 96) && Plain(texts[3], 1, 96)
           && Plain(texts[4], 1, 96) && Plain(texts[5], 1, 96) && Plain(texts[6], 1, 96);
    Sides();
    assert Plain([0x6c, 0x6f, 0x6e, 0x67], 1, 96) && Plain([0x73, 0x68, 0x6f, 0x72, 0x74], 1, 96) by { SidesPlain(); }
  }

  lemma SidesPlain()
    ensures Plain([0x6c, 0x6f, 0x6e, 0x67], 1, 96) && Plain([0x73, 0x68, 0x6f, 0x72, 0x74], 1, 96)
  {
  }

  lemma AgentIff(body: Body, network: Network)
    requires body.AgentSessionBody? || body.AgentRiskBody? || body.AgentSettlementBody?
    ensures CodecLaws.BodyOk(body, network) <==> BodyGood(body, network)
  {
    hide ValidateVisibleAscii, ValidateTexts, Plain;
    match body {
      case AgentSessionBody(sessionId, agentId, venue, market, _, _, _, _) =>
        var texts := [sessionId, agentId, venue, market];
        TextsIff(texts);
        assert ValidateTexts(texts).Ok?
          <==> Plain(texts[0], 1, 96) && Plain(texts[1], 1, 96) && Plain(texts[2], 1, 96) && Plain(texts[3], 1, 96);
      case AgentRiskBody(sessionId, _, _, _) =>
        PlainIff(sessionId, 96);
      case AgentSettlementBody(sessionId, executionId, _, _, _, _, _, _) =>
        PlainIff(sessionId, 96);
        PlainIff(executionId, 96);
    }
  }

  lemma ListIff(body: Body, network: Network)
    requires body.BatchBody? || body.GovernanceBody? || body.PolicyBody? || body.AssetPolicyBody? || body.EscrowReturnBody?
    ensures CodecLaws.BodyOk(body, network) <==> BodyGood(body, network)
  {
    hide ValidateVisibleAscii, Plain, ValidateRow, RowGood, IsZero, PresentOrNot, Network.ChainKind, IsGovernance, ActionKind.Code;
    match body {
      case BatchBody(rows) =>
        Rows(rows);
        assert RowsOf(body) == rows;
      case GovernanceBody(kind, _, _, _, _, _, _) => KindIff(kind);
      case PolicyBody(_, _) =>
      case AssetPolicyBody(_, _, _, mint, displayAsset, _) =>
        PresentIff(mint);
        PlainIff(displayAsset, 16);
      case EscrowReturnBody(escrowId, escrowTitle, rows, _) =>
        PlainIff(escrowId, 96);
        PlainIff(escrowTitle, 96);
        Rows(rows);
        assert RowsOf(body) == rows;
    }
  }

  /** The checks of the encoders and of the parser accept exactly the acceptable requests. */
  lemma AcceptedIff(q: Request)
    ensures Accepted(q) <==> Acceptable(q)
  {
    hide ValidateBody, BodyGood, Plain, ValidateVisibleAscii, ValidateRow, ValidateFiat;
    PlainIff(q.reason, 160);
    assert Accepted(q) <==> CodecLaws.BodyOk(q.body, q.common.network) && ValidateVisibleAscii(q.reason, 160, true).Ok?
                            && 1 <= q.common.approvalRequired <= 16;
    match q.body {
      case SendBody(_, _, _) => PaymentIff(q.body, q.common.network);
      case EscrowReleaseBody(_, _, _, _, _, _) => PaymentIff(q.body, q.common.network);
      case RecurringBody(_, _, _, _, _, _, _) => PaymentIff(q.body, q.common.network);
      case AgentTradeBody(_, _, _, _, _, _, _, _, _, _) => TradeIff(q.body, q.common.network);
      case AgentSessionBody(_, _, _, _, _, _, _, _) => AgentIff(q.body, q.common.network);
      case AgentRiskBody(_, _, _, _) => AgentIff(q.body, q.common.network);
      case AgentSettlementBody(_, _, _, _, _, _, _, _) => AgentIff(q.body, q.common.network);
      case _ => ListIff(q.body, q.common.network);
    }
  }

  // ----- Refusals -----

  lemma Drops(b: seq<byte>)
    ensures |b| >= 9 ==> b[8..][0] == b[8] && b[8..][1..] == b[9..]
    ensures |b| >= 10 ==> b[9..][0] == b[9] && b[9..][1..] == b[10..]
    ensures |b| >= 11 ==> b[10..][0] == b[10] && b[10..][1..] == b[11..]
    ensures |b| >= 12 ==> b[11..][0] == b[11] && b[11..][1..] == b[12..]
  {
  }

  lemma ReadByte(b: seq<byte>)
    ensures ReadU8(b) == if b == [] then Err(InvalidLength) else Ok((b[0], b[1..]))
  {
  }

  predicate GoodHeader(b: seq<byte>) {
    |b| >= 12 && b[..8] == Ascii("CSIGINT4") && b[8] == 4 && 1 <= b[9] <= 2 && 1 <= b[10] <= 16 && 1 <= b[11] <= 8
  }

  /** The header is refused for its first fault. */
  lemma HeaderRefused(b: seq<byte>)
    ensures ParseHeader(b) ==
      if |b| < 8 then Err(InvalidLength)
      else if b[..8] != Ascii("CSIGINT4") then Err(InvalidMagic)
      else if |b| < 9 then Err(InvalidLength)
      else if b[8] != 4 then Err(UnsupportedVersion)
      else if |b| < 10 then Err(InvalidLength)
      else if !(1 <= b[9] <= 2) then Err(UnknownDeviceProfile)
      else if |b| < 11 then Err(InvalidLength)
      else if !(1 <= b[10] <= 16) then Err(UnsupportedAction)
      else if |b| < 12 then Err(InvalidLength)
      else if !(1 <= b[11] <= 8) then Err(UnknownNetwork)
      else Ok(((if b[9] == 1 then Full else LedgerSolana, KINDS[b[10] - 1], NETWORKS[b[11] - 1].0), b[12..]))
  {
    hide Ascii, ReadU8;
    Drops(b);
    if |b| >= 8 {
      ReadByte(b[8..]);
    }
    if |b| >= 9 {
      ReadByte(b[9..]);
    }
    if |b| >= 10 {
      ReadByte(b[10..]);
    }
    if |b| >= 11 {
      ReadByte(b[11..]);
    }
  }

  lemma HeaderError(b: seq<byte>)
    ensures ParseHeader(b).Err? <==> !GoodHeader(b)
    ensures ParseHeader(b).Err? ==> ParseCommon(b) == Err(ParseHeader(b).error)
  {
    hide ParseHeader, ReadU64, ReadI64, ReadArray32, ReadU8, FromLE, FromTwos, KINDS, NETWORKS;
    HeaderRefused(b);
  }

  /** What the parser refuses before it looks further: what is too long, and the first fault of the header. */
  lemma ParseRefused(b: seq<byte>)
    ensures |b| > 2048 ==> Parse(b) == Err(InvalidLength)
    ensures |b| <= 2048 && !GoodHeader(b) ==> ParseHeader(b).Err? && Parse(b) == Err(ParseHeader(b).error)
  {
    hide ParseHeader, ParseCommon, ParseBody, ReadBytes, GoodHeader, CommonThen, Serialize, BodyThen, ValidateApproval;
    HeaderError(b);
  }

  /** Bytes behind an accepted intent are refused as trailing. */
  lemma TrailingRefused(b: seq<byte>, extra: seq<byte>)
    requires Parse(b).Ok? && extra != [] && |b| + |extra| <= 2048
    ensures Parse(b + extra) == Err(TrailingBytes)
  {
    hide CommonThen, BodyThen, Text16, ParseCommon, ParseBody, ReadBytes, ValidateRow, ValidateBody, Visible, RowsOf;
    var q := Parse(b).value;
    var t2 := BodyThen(q.body, Text16(q.reason, extra));
    SerializeExtra(q, extra);
    CodecLaws.CommonBack(q.common, q.body.Kind(), t2);
    CodecLaws.BodyBack(q.body, q.common.network, Text16(q.reason, extra));
    CodecLaws.TextBack(q.reason, MAX_REASON_BYTES, extra);
  }

  lemma SerializeExtra(q: Request, extra: seq<byte>)
    ensures Serialize(q) + extra == CommonThen(q.common, q.body.Kind(), BodyThen(q.body, Text16(q.reason, extra)))
  {
    hide CommonThen, BodyThen, Text16;
    var kind, reason := q.body.Kind(), Text16(q.reason, []);
    Nothing(extra);
    CodecLaws.TextStep(q.reason, [], extra);
    CodecLaws.BodySplit(q.body, reason);
    CodecLaws.BodySplit(q.body, reason + extra);
    Assoc(BodyThen(q.body, []), reason, extra);
    CodecLaws.CommonSplit(q.common, kind, BodyThen(q.body, reason));
    CodecLaws.CommonSplit(q.common, kind, BodyThen(q.body, reason) + extra);
    Assoc(CommonThen(q.common, kind, []), BodyThen(q.body, reason), extra);
  }

  /** An acceptable request fails to encode only for want of room. */
  lemma EncodeRefused(q: Request, capacity: nat)
    requires Acceptable(q)
    ensures Encode(q, capacity) == if |Serialize(q)| <= capacity then Ok(Serialize(q)) else Err(BufferTooSmall)
  {
    hide Serialize, BodyHead, ValidateRequest, ValidateRow, RowsThen, BodyThen, CommonThen, Acceptable, RowsFit;
    AcceptedIff(q);
    CodecLaws.EncodeIffSerialized(q, capacity, Serialize(q));
    RowsShort(RowsOf(q.body), if RowsOf(q.body) == [] then 0 else 189 + |BodyHead(q.body)|, capacity);
  }

  lemma {:induction false} RowsShort(rows: seq<TransferRow>, used: nat, capacity: nat)
    requires forall i :: 0 <= i < |rows| ==> ValidateRow(rows[i]).Ok?
    ensures RowsFit(rows, used, capacity).Err? ==> RowsFit(rows, used, capacity).error == BufferTooSmall
  {
    hide RowThen, ValidateRow;
    if rows != [] {
      RowsShort(rows[1..], used + |RowThen(rows[0], [])|, capacity);
    }
  }
}

/** The encoders and the parser as the signing crate runs them, against the pure wire format. */
module Codec {
  import opened Base
  import opened Model
  import opened Wire
  import opened Io
  import opened CodecLaws

  // ----- Shared writers -----

  method WriteCommon(w: Writer, common: CommonFields, kind: ActionKind) returns (r: Check)
    requires w.Valid()
    modifies w`len, w.out
    ensures w.Valid()
    ensures ValidateApproval(common.approvalRequired).Err? ==> r == Err(InvalidContext)
    ensures ValidateApproval(common.approvalRequired).Ok? ==>
              w.Wrote(old(w.Contents()), CommonThen(common, kind, []), r)
  {
    hide Writer.Contents, LE, ActionKind.Code, Network.Code, DeviceProfile.Code, CommonThen;
    if common.approvalRequired == 0 || common.approvalRequired > 16 {
      return Err(InvalidContext);
    }
    CommonLength(common, kind, []);
    AppendCommon(w.Contents(), common, kind);
    var _ :- w.Push(INTENT_MAGIC);
    var _ :- w.U8(INTENT_VERSION);
    var _ :- w.U8(common.profile.Code());
    var _ :- w.U8(kind.Code());
    var _ :- w.U8(common.network.Code());
    var _ :- w.Word(common.proposalIndex, 8);
    var _ :- w.Push(common.walletId);
    var _ :- w.Push(common.actor);
    var _ :- w.Push(common.actionId);
    var _ :- w.Push(common.nonce);
    var _ :- w.Word(Twos(common.expiresAt), 8);
    var _ :- w.Push(common.policyCommitment);
    r := w.U8(common.approvalRequired);
  }

  lemma AppendCommon(b: seq<byte>, c: CommonFields, kind: ActionKind)
    ensures b + CommonThen(c, kind, []) ==
      b + INTENT_MAGIC + [INTENT_VERSION] + [c.profile.Code()] + [kind.Code()] + [c.network.Code()]
      + LE(c.proposalIndex, 8) + c.walletId + c.actor + c.actionId + c.nonce
      + LE(Twos(c.expiresAt), 8) + c.policyCommitment + [c.approvalRequired]
  {
    hide LE, ActionKind.Code, Network.Code, DeviceProfile.Code;
    var last := LE(Twos(c.expiresAt), 8) + (c.policyCommitment + [c.approvalRequired]);
    var ids := c.actor + (c.actionId + (c.nonce + last));
    Nothing([c.approvalRequired]);
    var b3 := b + INTENT_MAGIC + [INTENT_VERSION] + [c.profile.Code()];
    Regroup(b, INTENT_MAGIC, [INTENT_VERSION], [c.profile.Code()],
      [kind.Code()] + ([c.network.Code()] + (LE(c.proposalIndex, 8) + (c.walletId + ids))));
    var b6 := b3 + [kind.Code()] + [c.network.Code()] + LE(c.proposalIndex, 8);
    Regroup(b3, [kind.Code()], [c.network.Code()], LE(c.proposalIndex, 8), c.walletId + ids);
    var b9 := b6 + c.walletId + c.actor + c.actionId;
    Regroup(b6, c.walletId, c.actor, c.actionId, c.nonce + last);
    Regroup(b9, c.nonce, LE(Twos(c.expiresAt), 8), c.policyCommitment, [c.approvalRequired]);
  }

  /** The fields of a row have lengths that their prefixes can say. */
  predicate RowShort(row: TransferRow) {
    |row.recipient| < 0x1_0000 && |row.asset| < 0x1_0000 && |row.displayAsset| < 0x1_0000
  }

  lemma ValidRowShort(row: TransferRow)
    ensures ValidateRow(row).Ok? ==> RowShort(row)
  {
    hide Visible;
  }

  method WriteRow(w: Writer, row: TransferRow) returns (r: Check)
    requires w.Valid()
    modifies w`len, w.out
    ensures w.Valid()
    ensures RowShort(row) ==> w.Wrote(old(w.Contents()), RowThen(row, []), r)
    ensures !RowShort(row) ==> r.Err?
  {
    hide Writer.Contents, LE, Text16, IdentityEncoding.Code, RowThen, Visible;
    AppendRow(w.Contents(), row);
    var _ :- w.U8(row.recipientEncoding.Code());
    var _ :- w.Bytes(row.recipient);
    var _ :- w.U8(row.assetEncoding.Code());
    var _ :- w.Bytes(row.asset);
    var _ :- w.Word(row.rawAmount, 16);
    var _ :- w.U8(row.decimals);
    r := w.Bytes(row.displayAsset);
  }

  lemma AppendRow(b: seq<byte>, row: TransferRow)
    ensures b + RowThen(row, []) ==
      b + [row.recipientEncoding.Code()] + Text16(row.recipient, []) + [row.assetEncoding.Code()]
      + Text16(row.asset, []) + LE(row.rawAmount, 16) + [row.decimals] + Text16(row.displayAsset, [])
  {
    hide LE, Text16, IdentityEncoding.Code;
    var shown := Text16(row.displayAsset, []);
    var amount := LE(row.rawAmount, 16) + ([row.decimals] + shown);
    TextTail(row.asset, amount);
    var rest := [row.assetEncoding.Code()] + (Text16(row.asset, []) + amount);
    TextTail(row.recipient, rest);
    var b2 := b + [row.recipientEncoding.Code()] + Text16(row.recipient, []);
    Assoc(b, [row.recipientEncoding.Code()], Text16(row.recipient, []) + rest);
    Assoc(b + [row.recipientEncoding.Code()], Text16(row.recipient, []), rest);
    Regroup(b2, [row.assetEncoding.Code()], Text16(row.asset, []), LE(row.rawAmount, 16), [row.decimals] + shown);
    Assoc(b2 + [row.assetEncoding.Code()] + Text16(row.asset, []) + LE(row.rawAmount, 16), [row.decimals], shown);
  }

  predicate FiatShort(fiat: Option<FiatEstimate>) {
    fiat.Some? ==> |fiat.value.amount| < 0x1_0000 && |fiat.value.currency| < 0x1_0000 && |fiat.value.source| < 0x1_0000
  }

  lemma ValidFiatShort(fiat: Option<FiatEstimate>)
    ensures ValidateOptionalFiat(fiat).Ok? ==> FiatShort(fiat)
  {
    hide Visible, FiatAmountText;
  }

  method WriteFiat(w: Writer, fiat: Option<FiatEstimate>) returns (r: Check)
    requires w.Valid()
    modifies w`len, w.out
    ensures w.Valid()
    ensures FiatShort(fiat) ==> w.Wrote(old(w.Contents()), FiatThen(fiat, []), r)
    ensures !FiatShort(fiat) ==> r.Err?
  {
    hide Writer.Contents, LE, Text16, FiatThen, Visible, FiatAmountText;
    AppendFiat(w.Contents(), fiat);
    match fiat {
      case None =>
        r := w.U8(0);
      case Some(f) =>
        var _ :- w.U8(1);
        var _ :- w.Bytes(f.amount);
        var _ :- w.Bytes(f.currency);
        var _ :- w.Bytes(f.source);
        r := w.Word(Twos(f.observedAt), 8);
    }
  }

  lemma AppendFiat(b: seq<byte>, fiat: Option<FiatEstimate>)
    ensures b + FiatThen(fiat, []) ==
      match fiat
      case None => b + [0]
      case Some(f) => b + [1] + Text16(f.amount, []) + Text16(f.currency, []) + Text16(f.source, [])
                      + LE(Twos(f.observedAt), 8)
  {
    hide LE, Text16;
    match fiat {
      case None => Nothing([0]);
      case Some(f) =>
        var time := LE(Twos(f.observedAt), 8);
        Nothing(time);
        TextTail(f.source, time);
        TextTail(f.currency, Text16(f.source, []) + time);
        TextTail(f.amount, Text16(f.currency, []) + (Text16(f.source, []) + time));
        Regroup(b, [1], Text16(f.amount, []), Text16(f.currency, []), Text16(f.source, []) + time);
        Assoc(b + [1] + Text16(f.amount, []) + Text16(f.currency, []), Text16(f.source, []), time);
    }
  }

  /** The key loops of a governance change. */
  method WriteKeys(w: Writer, keys: seq<Bytes32>) returns (r: Check)
    requires w.Valid()
    modifies w`len, w.out
    ensures w.Valid() && w.Wrote(old(w.Contents()), Flat(keys), r)
  {
    hide Writer.Contents, Flat;
    ghost var before := w.Contents();
    FlatSnoc([], keys);
    for i := 0 to |keys|
      invariant w.Valid() && w.Contents() == before + Flat(keys[..i])
    {
      FlatSnoc(keys[..i], keys[i..]);
      assert keys[..i] + [keys[i..][0]] == keys[..i + 1];
      assert |Flat(keys[..i + 1])| <= |Flat(keys)|;
      var _ :- w.Push(keys[i]);
    }
    assert keys[..|keys|] == keys;
    return Ok(());
  }

  lemma {:induction false} FlatSnoc(front: seq<Bytes32>, back: seq<Bytes32>)
    ensures Flat([]) == []
    ensures back != [] ==> Flat(front + [back[0]]) == Flat(front) + back[0]
  {
    if back != [] {
      if front == [] {
        assert front + [back[0]] == [back[0]];
      } else {
        FlatSnoc(front[1..], back);
        assert (front + [back[0]])[1..] == front[1..] + [back[0]];
      }
    }
  }

  // ----- One writer per shape -----

  method WriteSend(w: Writer, body: Body, ghost network: Network) returns (r: Check)
    requires w.Valid() && body.SendBody? && BodyOk(body, network)
    modifies w`len, w.out
    ensures w.Valid() && w.Wrote(old(w.Contents()), BodyThen(body, []), r)
  {
    hide Writer.Contents, RowThen, FiatThen, ValidateRow, ValidateFiat, BodyThen;
    AppendSend(w.Contents(), body);
    ValidRowShort(body.row);
    var _ :- WriteRow(w, body.row);
    var _ :- w.Push(body.executionCommitment);
    ValidFiatShort(body.fiat);
    r := WriteFiat(w, body.fiat);
  }

  lemma AppendSend(b: seq<byte>, body: Body)
    requires body.SendBody?
    ensures b + BodyThen(body, []) ==
      b + RowThen(body.row, []) + body.executionCommitment + FiatThen(body.fiat, [])
  {
    hide LE, RowThen, FiatThen;
    var rest := body.executionCommitment + FiatThen(body.fiat, []);
    RowSplit(body.row, rest);
    Assoc(b, RowThen(body.row, []), rest);
    Assoc(b + RowThen(body.row, []), body.executionCommitment, FiatThen(body.fiat, []));
  }

  method WriteGovernance(w: Writer, body: Body, ghost network: Network) returns (r: Check)
    requires w.Valid() && body.GovernanceBody? && BodyOk(body, network)
    modifies w`len, w.out
    ensures w.Valid() && w.Wrote(old(w.Contents()), BodyThen(body, []), r)
  {
    hide Writer.Contents, LE, Flat, BodyThen;
    AppendGovernance(w.Contents(), body);
    var _ :- w.U8(body.targetIntentIndex);
    var _ :- w.U8(body.approvalThreshold);
    var _ :- w.U8(body.cancellationThreshold);
    var _ :- w.Word(body.timelockSeconds, 4);
    var _ :- w.U8(|body.proposers| % 256);
    var _ :- WriteKeys(w, body.proposers);
    var _ :- w.U8(|body.approvers| % 256);
    r := WriteKeys(w, body.approvers);
  }

  lemma AppendGovernance(b: seq<byte>, body: Body)
    requires body.GovernanceBody?
    ensures b + BodyThen(body, []) ==
      b + [body.targetIntentIndex] + [body.approvalThreshold] + [body.cancellationThreshold]
      + LE(body.timelockSeconds, 4) + [|body.proposers| % 256] + Flat(body.proposers) + [|body.approvers| % 256]
      + Flat(body.approvers)
  {
    hide LE, Flat;
    var n, m := [|body.proposers| % 256], [|body.approvers| % 256];
    var last := Flat(body.proposers) + (m + Flat(body.approvers));
    Nothing(Flat(body.approvers));
    var b3 := b + [body.targetIntentIndex] + [body.approvalThreshold] + [body.cancellationThreshold];
    Regroup(b, [body.targetIntentIndex], [body.approvalThreshold], [body.cancellationThreshold],
      LE(body.timelockSeconds, 4) + (n + last));
    Regroup(b3, LE(body.timelockSeconds, 4), n, Flat(body.proposers), m + Flat(body.approvers));
    Assoc(b3 + LE(body.timelockSeconds, 4) + n + Flat(body.proposers), m, Flat(body.approvers));
  }

  method WritePolicy(w: Writer, body: Body, ghost network: Network) returns (r: Check)
    requires w.Valid() && body.PolicyBody? && BodyOk(body, network)
    modifies w`len, w.out
    ensures w.Valid() && w.Wrote(old(w.Contents()), BodyThen(body, []), r)
  {
    hide Writer.Contents, LE, BodyThen;
    AppendPolicy(w.Contents(), body);
    var _ :- w.U8(body.chainKind);
    r := w.Push(body.newPolicyCommitment);
  }

  lemma AppendPolicy(b: seq<byte>, body: Body)
    requires body.PolicyBody?
    ensures b + BodyThen(body, []) ==
      b + [body.chainKind] + body.newPolicyCommitment
  {
    Nothing(body.newPolicyCommitment);
    Assoc(b, [body.chainKind], body.newPolicyCommitment);
  }

  method WriteAssetPolicy(w: Writer, body: Body, ghost network: Network) returns (r: Check)
    requires w.Valid() && body.AssetPolicyBody? && BodyOk(body, network)
    modifies w`len, w.out
    ensures w.Valid() && w.Wrote(old(w.Contents()), BodyThen(body, []), r)
  {
    hide Writer.Contents, Text16, Visible, BodyThen;
    AppendAssetPolicy(w.Contents(), body);
    var _ :- w.U8(body.chainKind);
    var _ :- w.U8(body.scopeKind);
    var _ :- w.U8(body.decimals);
    var _ :- w.Push(body.mint);
    var _ :- w.Bytes(body.displayAsset);
    r := w.Push(body.newPolicyCommitment);
  }

  lemma AppendAssetPolicy(b: seq<byte>, body: Body)
    requires body.AssetPolicyBody?
    ensures b + BodyThen(body, []) ==
      b + [body.chainKind] + [body.scopeKind] + [body.decimals] + body.mint + Text16(body.displayAsset, [])
      + body.newPolicyCommitment
  {
    hide LE, Text16;
    var last := Text16(body.displayAsset, []) + body.newPolicyCommitment;
    Nothing(body.newPolicyCommitment);
    TextTail(body.displayAsset, body.newPolicyCommitment);
    Regroup(b, [body.chainKind], [body.scopeKind], [body.decimals], body.mint + last);
    var b3 := b + [body.chainKind] + [body.scopeKind] + [body.decimals];
    Assoc(b3, body.mint, last);
    Assoc(b3 + body.mint, Text16(body.displayAsset, []), body.newPolicyCommitment);
  }

  method WriteEscrowRelease(w: Writer, body: Body, ghost network: Network) returns (r: Check)
    requires w.Valid() && body.EscrowReleaseBody? && BodyOk(body, network)
    modifies w`len, w.out
    ensures w.Valid() && w.Wrote(old(w.Contents()), BodyThen(body, []), r)
  {
    hide Writer.Contents, Text16, RowThen, ValidateRow, Visible, BodyThen;
    AppendEscrowRelease(w.Contents(), body);
    var _ :- w.Bytes(body.escrowId);
    var _ :- w.Bytes(body.escrowTitle);
    var _ :- w.Bytes(body.milestoneId);
    var _ :- w.Bytes(body.milestoneTitle);
    ValidRowShort(body.payment);
    var _ :- WriteRow(w, body.payment);
    r := w.Push(body.executionCommitment);
  }

  lemma AppendEscrowRelease(b: seq<byte>, body: Body)
    requires body.EscrowReleaseBody?
    ensures b + BodyThen(body, []) ==
      b + Text16(body.escrowId, []) + Text16(body.escrowTitle, []) + Text16(body.milestoneId, [])
      + Text16(body.milestoneTitle, []) + RowThen(body.payment, []) + body.executionCommitment
  {
    hide LE, RowThen, Text16;
    var last := RowThen(body.payment, []) + body.executionCommitment;
    Nothing(body.executionCommitment);
    RowSplit(body.payment, body.executionCommitment);
    TextTail(body.milestoneTitle, last);
    var m := Text16(body.milestoneTitle, []) + last;
    TextTail(body.milestoneId, m);
    TextTail(body.escrowTitle, Text16(body.milestoneId, []) + m);
    TextTail(body.escrowId, Text16(body.escrowTitle, []) + (Text16(body.milestoneId, []) + m));
    var b3 := b + Text16(body.escrowId, []) + Text16(body.escrowTitle, []) + Text16(body.milestoneId, []);
    Regroup(b, Text16(body.escrowId, []), Text16(body.escrowTitle, []), Text16(body.milestoneId, []), m);
    Assoc(b3, Text16(body.milestoneTitle, []), last);
    Assoc(b3 + Text16(body.milestoneTitle, []), RowThen(body.payment, []), body.executionCommitment);
  }

  method WriteAgentTrade(w: Writer, body: Body, ghost network: Network) returns (r: Check)
    requires w.Valid() && body.AgentTradeBody? && BodyOk(body, network)
    modifies w`len, w.out
    ensures w.Valid() && w.Wrote(old(w.Contents()), BodyThen(body, []), r)
  {
    hide Writer.Contents, LE, Text16, Visible, ValidateTexts, BodyThen;
    TextsShort(body, network);
    AppendAgentTrade(w.Contents(), body);
    var _ :- w.Bytes(body.agentId);
    var _ :- w.Bytes(body.venue);
    var _ :- w.Bytes(body.market);
    var _ :- w.Bytes(body.side);
    var _ :- w.Bytes(body.assetId);
    var _ :- w.Word(body.maxNotionalRaw, 16);
    var _ :- w.Word(body.maxLeverageX100, 4);
    var _ :- w.Bytes(body.sessionId);
    var _ :- w.Bytes(body.route);
    r := w.Push(body.riskCheckHash);
  }

  lemma AppendAgentTrade(b: seq<byte>, body: Body)
    requires body.AgentTradeBody?
    ensures b + BodyThen(body, []) ==
      b + Text16(body.agentId, []) + Text16(body.venue, []) + Text16(body.market, []) + Text16(body.side, [])
      + Text16(body.assetId, []) + LE(body.maxNotionalRaw, 16) + LE(body.maxLeverageX100, 4)
      + Text16(body.sessionId, []) + Text16(body.route, []) + body.riskCheckHash
  {
    hide LE, Text16;
    var AgentTradeBody(agentId, venue, market, side, assetId, notional, leverage, sessionId, route, risk) := body;
    var last := Text16(route, []) + risk;
    Nothing(risk);
    TextTail(route, risk);
    TextTail(sessionId, last);
    var limits := LE(notional, 16) + (LE(leverage, 4) + (Text16(sessionId, []) + last));
    TextTail(assetId, limits);
    var a := Text16(assetId, []) + limits;
    TextTail(side, a);
    TextTail(market, Text16(side, []) + a);
    TextTail(venue, Text16(market, []) + (Text16(side, []) + a));
    TextTail(agentId, Text16(venue, []) + (Text16(market, []) + (Text16(side, []) + a)));
    var b3 := b + Text16(agentId, []) + Text16(venue, []) + Text16(market, []);
    Regroup(b, Text16(agentId, []), Text16(venue, []), Text16(market, []), Text16(side, []) + a);
    var b6 := b3 + Text16(side, []) + Text16(assetId, []) + LE(notional, 16);
    Regroup(b3, Text16(side, []), Text16(assetId, []), LE(notional, 16), LE(leverage, 4) + (Text16(sessionId, []) + last));
    Regroup(b6, LE(leverage, 4), Text16(sessionId, []), Text16(route, []), risk);
  }

  method WriteAgentSession(w: Writer, body: Body, ghost network: Network) returns (r: Check)
    requires w.Valid() && body.AgentSessionBody? && BodyOk(body, network)
    modifies w`len, w.out
    ensures w.Valid() && w.Wrote(old(w.Contents()), BodyThen(body, []), r)
  {
    hide Writer.Contents, LE, Text16, Visible, ValidateTexts, BodyThen;
    TextsShort(body, network);
    AppendAgentSession(w.Contents(), body);
    var _ :- w.Bytes(body.sessionId);
    var _ :- w.Bytes(body.agentId);
    var _ :- w.Bytes(body.venue);
    var _ :- w.Bytes(body.market);
    var _ :- w.Word(body.maxNotionalRaw, 16);
    var _ :- w.Word(body.maxLeverageX100, 4);
    var _ :- w.Word(Twos(body.sessionExpiresAt), 8);
    r := w.U8(body.status);
  }

  lemma AppendAgentSession(b: seq<byte>, body: Body)
    requires body.AgentSessionBody?
    ensures b + BodyThen(body, []) ==
      b + Text16(body.sessionId, []) + Text16(body.agentId, []) + Text16(body.venue, [])
      + Text16(body.market, []) + LE(body.maxNotionalRaw, 16) + LE(body.maxLeverageX100, 4)
      + LE(Twos(body.sessionExpiresAt), 8) + [body.status]
  {
    hide LE, Text16;
    var AgentSessionBody(sessionId, agentId, venue, market, notional, leverage, expiry, status) := body;
    var limits := LE(notional, 16) + (LE(leverage, 4) + (LE(Twos(expiry), 8) + [status]));
    Nothing([status]);
    TextTail(market, limits);
    var m := Text16(market, []) + limits;
    TextTail(venue, m);
    TextTail(agentId, Text16(venue, []) + m);
    TextTail(sessionId, Text16(agentId, []) + (Text16(venue, []) + m));
    var b3 := b + Text16(sessionId, []) + Text16(agentId, []) + Text16(venue, []);
    Regroup(b, Text16(sessionId, []), Text16(agentId, []), Text16(venue, []), m);
    Assoc(b3, Text16(market, []), limits);
    Regroup(b3 + Text16(market, []), LE(notional, 16), LE(leverage, 4), LE(Twos(expiry), 8), [status]);
  }

  method WriteAgentRisk(w: Writer, body: Body, ghost network: Network) returns (r: Check)
    requires w.Valid() && body.AgentRiskBody? && BodyOk(body, network)
    modifies w`len, w.out
    ensures w.Valid() && w.Wrote(old(w.Contents()), BodyThen(body, []), r)
  {
    hide Writer.Contents, LE, Text16, Visible, BodyThen;
    AppendAgentRisk(w.Contents(), body);
    var _ :- w.Bytes(body.sessionId);
    var _ :- w.Push(body.oraclePolicyHash);
    var _ :- w.Word(body.maxLossRaw, 16);
    r := w.U8(body.status);
  }

  lemma AppendAgentRisk(b: seq<byte>, body: Body)
    requires body.AgentRiskBody?
    ensures b + BodyThen(body, []) ==
      b + Text16(body.sessionId, []) + body.oraclePolicyHash + LE(body.maxLossRaw, 16) + [body.status]
  {
    hide LE, Text16;
    var rest := body.oraclePolicyHash + (LE(body.maxLossRaw, 16) + [body.status]);
    Nothing([body.status]);
    TextTail(body.sessionId, rest);
    Regroup(b, Text16(body.sessionId, []), body.oraclePolicyHash, LE(body.maxLossRaw, 16), [body.status]);
  }

  method WriteAgentSettlement(w: Writer, body: Body, ghost network: Network) returns (r: Check)
    requires w.Valid() && body.AgentSettlementBody? && BodyOk(body, network)
    modifies w`len, w.out
    ensures w.Valid() && w.Wrote(old(w.Contents()), BodyThen(body, []), r)
  {
    hide Writer.Contents, LE, Text16, Visible, BodyThen;
    AppendAgentSettlement(w.Contents(), body);
    var _ :- w.Bytes(body.sessionId);
    var _ :- w.Bytes(body.executionId);
    var _ :- w.Push(body.settlementArtifactHash);
    var _ :- w.Push(body.oraclePolicyHash);
    var _ :- w.Word(body.closedNotionalRaw, 16);
    var _ :- w.U8(body.outcome);
    var _ :- w.Word(body.pnlAbsRaw, 16);
    r := w.Word(body.settlementSequence, 8);
  }

  lemma AppendAgentSettlement(b: seq<byte>, body: Body)
    requires body.AgentSettlementBody?
    ensures b + BodyThen(body, []) ==
      b + Text16(body.sessionId, []) + Text16(body.executionId, []) + body.settlementArtifactHash
      + body.oraclePolicyHash + LE(body.closedNotionalRaw, 16) + [body.outcome] + LE(body.pnlAbsRaw, 16)
      + LE(body.settlementSequence, 8)
  {
    hide LE, Text16;
    var AgentSettlementBody(sessionId, executionId, artifact, oracle, closed, outcome, pnl, sequence) := body;
    var last := LE(pnl, 16) + LE(sequence, 8);
    var figures := oracle + (LE(closed, 16) + ([outcome] + last));
    Nothing(LE(sequence, 8));
    TextTail(executionId, artifact + figures);
    TextTail(sessionId, Text16(executionId, []) + (artifact + figures));
    var b3 := b + Text16(sessionId, []) + Text16(executionId, []) + artifact;
    Regroup(b, Text16(sessionId, []), Text16(executionId, []), artifact, figures);
    Regroup(b3, oracle, LE(closed, 16), [outcome], last);
    Assoc(b3 + oracle + LE(closed, 16) + [outcome], LE(pnl, 16), LE(sequence, 8));
  }

  method WriteRecurring(w: Writer, body: Body, ghost network: Network) returns (r: Check)
    requires w.Valid() && body.RecurringBody? && BodyOk(body, network)
    modifies w`len, w.out
    ensures w.Valid() && w.Wrote(old(w.Contents()), BodyThen(body, []), r)
  {
    hide Writer.Contents, LE, Text16, RowThen, ValidateRow, Visible, BodyThen;
    AppendRecurring(w.Contents(), body);
    var _ :- w.Bytes(body.scheduleId);
    ValidRowShort(body.payment);
    var _ :- WriteRow(w, body.payment);
    if SplToken(body.payment) {
      var _ :- w.Push(body.executionCommitment);
    }
    var _ :- w.Word(body.intervalSeconds, 4);
    var _ :- w.Word(Twos(body.firstExecutionAt), 8);
    var _ :- w.Word(body.paymentCount, 4);
    r := w.U8(body.status);
  }

  lemma AppendRecurring(b: seq<byte>, body: Body)
    requires body.RecurringBody?
    ensures b + BodyThen(body, []) ==
      (if SplToken(body.payment)
       then b + Text16(body.scheduleId, []) + RowThen(body.payment, []) + body.executionCommitment
       else b + Text16(body.scheduleId, []) + RowThen(body.payment, []))
      + LE(body.intervalSeconds, 4) + LE(Twos(body.firstExecutionAt), 8) + LE(body.paymentCount, 4) + [body.status]
  {
    hide LE, RowThen, Text16;
    var RecurringBody(scheduleId, row, commitment, interval, first, count, status) := body;
    var c := if SplToken(row) then commitment else [];
    var terms := LE(interval, 4) + (LE(Twos(first), 8) + (LE(count, 4) + [status]));
    Nothing([status]);
    RowSplit(row, c + terms);
    TextTail(scheduleId, RowThen(row, []) + (c + terms));
    var b2 := b + Text16(scheduleId, []) + RowThen(row, []);
    Regroup(b, Text16(scheduleId, []), RowThen(row, []), c, terms);
    Nothing(b2);
    Regroup(b2 + c, LE(interval, 4), LE(Twos(first), 8), LE(count, 4), [status]);
  }

  /** The row loop: every row is checked, then written. */
  method WriteRows(w: Writer, rows: seq<TransferRow>) returns (r: Check)
    requires w.Valid()
    modifies w`len, w.out
    ensures w.Valid()
    ensures match RowsFit(rows, old(w.len), w.out.Length)
            case Ok(used) => r == Ok(()) && w.Contents() == old(w.Contents()) + RowsThen(rows, [])
            case Err(e) => r == Err(e)
  {
    hide Writer.Contents, RowThen, ValidateRow;
    ghost var before := w.Contents();
    for i := 0 to |rows|
      invariant w.Valid() && w.Contents() == before + RowsThen(rows[..i], [])
      invariant RowsFit(rows[i..], w.len, w.out.Length) == RowsFit(rows, old(w.len), w.out.Length)
    {
      assert rows[i..][0] == rows[i] && rows[i..][1..] == rows[i + 1..];
      RowsSnoc(rows[..i], rows[i]);
      assert rows[..i] + [rows[i]] == rows[..i + 1];
      var _ :- ValidateRow(rows[i]);
      ValidRowShort(rows[i]);
      var _ :- WriteRow(w, rows[i]);
    }
    assert rows[..|rows|] == rows;
    return Ok(());
  }

  lemma {:induction false} RowsSnoc(rows: seq<TransferRow>, row: TransferRow)
    ensures RowsThen(rows + [row], []) == RowsThen(rows, []) + RowThen(row, [])
  {
    hide RowThen;
    if rows == [] {
      assert ([] + [row])[1..] == [];
    } else {
      RowsSnoc(rows[1..], row);
      assert (rows + [row])[1..] == rows[1..] + [row];
      RowSplit(rows[0], RowsThen(rows[1..] + [row], []));
      RowSplit(rows[0], RowsThen(rows[1..], []));
      assert RowThen(rows[0], []) + (RowsThen(rows[1..], []) + RowThen(row, []))
             == RowThen(rows[0], []) + RowsThen(rows[1..], []) + RowThen(row, []);
    }
  }

  method WriteBatch(w: Writer, body: Body) returns (r: Check)
    requires w.Valid() && body.BatchBody? && 1 <= |body.rows| <= 16
    modifies w`len, w.out
    ensures w.Valid() && r == BodyFits(body, old(w.len), w.out.Length)
    ensures r.Ok? ==> w.Contents() == old(w.Contents()) + BodyThen(body, [])
  {
    hide Writer.Contents, RowsThen, RowsFit;
    RowsFitUsed(body.rows, w.len + 1, w.out.Length);
    ghost var before := w.Contents();
    var _ :- w.U8(|body.rows|);
    var _ :- WriteRows(w, body.rows);
    assert before + [|body.rows|] + RowsThen(body.rows, []) == before + BodyThen(body, []);
    return Ok(());
  }

  /** What the row loop ends on is what the rows take. */
  lemma {:induction false} RowsFitUsed(rows: seq<TransferRow>, used: nat, capacity: nat)
    ensures RowsFit(rows, used, capacity).Ok? ==> RowsFit(rows, used, capacity).value == used + |RowsThen(rows, [])|
    ensures RowsFit(rows, used, capacity).Ok? && used <= capacity ==> used + |RowsThen(rows, [])| <= capacity
  {
    hide RowThen, ValidateRow;
    if rows != [] {
      RowSplit(rows[0], RowsThen(rows[1..], []));
      RowsFitUsed(rows[1..], used + |RowThen(rows[0], [])|, capacity);
    }
  }

  method WriteEscrowReturn(w: Writer, body: Body, ghost network: Network) returns (r: Check)
    requires w.Valid() && body.EscrowReturnBody? && ValidateBody(body, network).Ok?
    modifies w`len, w.out
    ensures w.Valid() && r == BodyFits(body, old(w.len), w.out.Length)
    ensures r.Ok? ==> w.Contents() == old(w.Contents()) + BodyThen(body, [])
  {
    hide Writer.Contents, LE, Text16, Visible, RowsThen, RowsFit, BodyThen, BodyHead;
    AppendEscrowReturn(w.Contents(), body);
    RowsFitUsed(body.rows, w.len + |BodyHead(body)|, w.out.Length);
    var _ :- w.Bytes(body.escrowId);
    var _ :- w.Bytes(body.escrowTitle);
    var _ :- w.U8(|body.rows|);
    var _ :- WriteRows(w, body.rows);
    r := w.Push(body.executionCommitment);
  }

  lemma AppendEscrowReturn(b: seq<byte>, body: Body)
    requires body.EscrowReturnBody?
    ensures b + BodyHead(body) ==
      b + Text16(body.escrowId, []) + Text16(body.escrowTitle, []) + [|body.rows| % 256]
    ensures b + BodyThen(body, []) ==
      b + Text16(body.escrowId, []) + Text16(body.escrowTitle, []) + [|body.rows| % 256]
      + RowsThen(body.rows, []) + body.executionCommitment
  {
    hide LE, RowsThen, Text16;
    var n := [|body.rows| % 256];
    var last := RowsThen(body.rows, []) + body.executionCommitment;
    Nothing(body.executionCommitment);
    RowsSplit(body.rows, body.executionCommitment);
    TextTail(body.escrowTitle, n + last);
    TextTail(body.escrowId, Text16(body.escrowTitle, []) + (n + last));
    Regroup(b, Text16(body.escrowId, []), Text16(body.escrowTitle, []), n, last);
    Assoc(b + Text16(body.escrowId, []) + Text16(body.escrowTitle, []) + n, RowsThen(body.rows, []), body.executionCommitment);
    TextTail(body.escrowTitle, n);
    TextTail(body.escrowId, Text16(body.escrowTitle, []) + n);
    Assoc(b, Text16(body.escrowId, []), Text16(body.escrowTitle, []) + n);
    Assoc(b + Text16(body.escrowId, []), Text16(body.escrowTitle, []), n);
  }

  method WriteBody(w: Writer, body: Body, ghost network: Network) returns (r: Check)
    requires w.Valid() && ValidateBody(body, network).Ok?
    requires body.SendBody? ==> ValidateOptionalFiat(body.fiat).Ok?
    modifies w`len, w.out
    ensures w.Valid() && r == BodyFits(body, old(w.len), w.out.Length)
    ensures r.Ok? ==> w.Contents() == old(w.Contents()) + BodyThen(body, [])
  {
    hide Writer.Contents, BodyThen, ValidateRow, ValidateFiat, ValidateVisibleAscii, ValidateTexts, BodyHead;
    match body {
      case SendBody(_, _, _) => r := WriteSend(w, body, network);
      case BatchBody(_) => r := WriteBatch(w, body);
      case GovernanceBody(_, _, _, _, _, _, _) => r := WriteGovernance(w, body, network);
      case PolicyBody(_, _) => r := WritePolicy(w, body, network);
      case AssetPolicyBody(_, _, _, _, _, _) => r := WriteAssetPolicy(w, body, network);
      case EscrowReleaseBody(_, _, _, _, _, _) => r := WriteEscrowRelease(w, body, network);
      case EscrowReturnBody(_, _, _, _) => r := WriteEscrowReturn(w, body, network);
      case AgentTradeBody(_, _, _, _, _, _, _, _, _, _) => r := WriteAgentTrade(w, body, network);
      case AgentSessionBody(_, _, _, _, _, _, _, _) => r := WriteAgentSession(w, body, network);
      case AgentRiskBody(_, _, _, _) => r := WriteAgentRisk(w, body, network);
      case AgentSettlementBody(_, _, _, _, _, _, _, _) => r := WriteAgentSettlement(w, body, network);
      case RecurringBody(_, _, _, _, _, _, _) => r := WriteRecurring(w, body, network);
    }
  }

  /** The encoder of each request: its checks, then its writes into the caller's buffer. It returns
      and writes exactly what the pure `Encode` says. */
  method EncodeInto(q: Request, out: array<byte>) returns (r: Result<nat, Error>)
    modifies out
    ensures match Encode(q, out.Length)
            case Ok(b) => r == Ok(|b|) && |b| <= out.Length && out[..|b|] == b
            case Err(e) => r == Err(e)
  {
    hide CommonThen, BodyThen, BodyFits, ValidateBody, ValidateFiat, Visible, Serialize, Text16;
    SerializeParts(q);
    CommonLength(q.common, q.body.Kind(), []);
    var _ :- ValidateRequest(q);
    var w := new Writer(out);
    assert [] + CommonThen(q.common, q.body.Kind(), []) == CommonThen(q.common, q.body.Kind(), []);
    var _ :- WriteCommon(w, q.common, q.body.Kind());
    var _ :- WriteBody(w, q.body, q.common.network);
    var _ :- w.Bytes(q.reason);
    return Ok(w.len);
  }

  // ----- The parser -----

  method ReadRow(reader: Reader) returns (r: Result<TransferRow, Error>)
    modifies reader
    ensures reader.Reads(ParseRow(old(reader.remaining)), r)
  {
    hide ReadU8, ReadU128, ReadBytes, ValidateRow;
    var rc :- reader.U8();
    var recipientEncoding :- IdentityEncoding.FromCode(rc);
    var recipient :- reader.Bytes(MAX_IDENTITY_BYTES);
    var ac :- reader.U8();
    var assetEncoding :- IdentityEncoding.FromCode(ac);
    var asset :- reader.Bytes(MAX_ASSET_BYTES);
    var rawAmount :- reader.U128();
    var decimals :- reader.U8();
    var displayAsset :- reader.Bytes(24);
    var row := TransferRow(recipientEncoding, recipient, assetEncoding, asset, rawAmount, decimals, displayAsset);
    var _ :- ValidateRow(row);
    return Ok(row);
  }

  method ReadAsciiText(reader: Reader, max: nat) returns (r: Result<seq<byte>, Error>)
    modifies reader
    ensures reader.Reads(ReadAscii(old(reader.remaining), max), r)
  {
    hide ReadBytes, ValidateVisibleAscii;
    var value :- reader.Bytes(max);
    var _ :- ValidateVisibleAscii(value, max, false);
    return Ok(value);
  }

  method ReadFiat(reader: Reader) returns (r: Result<Option<FiatEstimate>, Error>)
    modifies reader
    ensures reader.Reads(ParseFiat(old(reader.remaining)), r)
  {
    hide ReadU8, ReadI64, ReadAscii, ValidateFiat;
    var tag :- reader.U8();
    if tag == 0 {
      return Ok(None);
    }
    if tag != 1 {
      return Err(InvalidEncoding);
    }
    var amount :- ReadAsciiText(reader, 32);
    var currency :- ReadAsciiText(reader, 8);
    var source :- ReadAsciiText(reader, 64);
    var observedAt :- reader.I64();
    var f := FiatEstimate(amount, currency, source, observedAt);
    var _ :- ValidateFiat(f);
    return Ok(Some(f));
  }

  /** The slice a fiat estimate was read from. */
  method ReadFiatBytes(reader: Reader) returns (r: Result<seq<byte>, Error>)
    modifies reader
    ensures match ParseFiat(old(reader.remaining))
            case Ok((fiat, rest)) => r == Ok(FiatThen(fiat, [])) && reader.remaining == rest
            case Err(e) => r == Err(e)
  {
    hide ParseFiat, FiatThen;
    var before := reader.remaining;
    var fiat :- ReadFiat(reader);
    FiatSplit(fiat, reader.remaining);
    return Ok(before[..|before| - |reader.remaining|]);
  }

  /** The slice that `n` rows were read from. */
  method ReadRowsSlice(reader: Reader, n: nat) returns (r: Result<seq<byte>, Error>)
    modifies reader
    ensures match ParseRows(old(reader.remaining), n)
            case Ok((rows, rest)) => r == Ok(RowsThen(rows, [])) && reader.remaining == rest
            case Err(e) => r == Err(e)
  {
    hide ParseRow, RowsThen, ParseRows;
    var start := reader.remaining;
    ghost var rows: seq<TransferRow> := [];
    PrependNothing(ParseRows(start, n));
    for i := 0 to n
      invariant ParseRows(start, n) == Prepend(rows, ParseRows(reader.remaining, n - i))
    {
      ParseRowsStep(reader.remaining, n - i);
      var row :- ReadRow(reader);
      PrependTwice(rows, row, ParseRows(reader.remaining, n - i - 1));
      rows := rows + [row];
    }
    ParseNoRows(reader.remaining);
    assert rows + [] == rows;
    RowsSplit(rows, reader.remaining);
    return Ok(start[..|start| - |reader.remaining|]);
  }

  ghost function Prepend(front: seq<TransferRow>, r: Read<seq<TransferRow>>): Read<seq<TransferRow>> {
    match r
    case Ok((rows, rest)) => Ok((front + rows, rest))
    case Err(e) => Err(e)
  }

  lemma ParseRowsStep(b: seq<byte>, n: nat)
    requires n > 0
    ensures ParseRows(b, n) ==
      match ParseRow(b)
      case Ok((row, rest)) => Prepend([row], ParseRows(rest, n - 1))
      case Err(e) => Err(e)
  {
    hide ParseRow;
  }

  lemma PrependNothing(r: Read<seq<TransferRow>>)
    ensures Prepend([], r) == r
  {
    if r.Ok? {
      assert [] + r.value.0 == r.value.0;
    }
  }

  lemma PrependTwice(front: seq<TransferRow>, row: TransferRow, r: Read<seq<TransferRow>>)
    ensures Prepend(front, Prepend([row], r)) == Prepend(front + [row], r)
  {
    if r.Ok? {
      assert front + ([row] + r.value.0) == front + [row] + r.value.0;
    }
  }

  lemma ParseNoRows(b: seq<byte>)
    ensures ParseRows(b, 0) == Ok(([], b))
  {
  }

  /** The action of the shape that `spec` reads, keeping slices where the parser keeps them. */
  ghost predicate Acts(spec: Read<Body>, reader: Reader, r: Result<Action, Error>)
    reads reader
  {
    match spec
    case Ok((body, rest)) => r == Ok(ActionOf(body)) && reader.remaining == rest
    case Err(e) => r == Err(e)
  }

  method ReadSend(reader: Reader, network: Network) returns (r: Result<Action, Error>)
    modifies reader
    ensures Acts(ParseSend(old(reader.remaining), network), reader, r)
  {
    hide Parsed, LE, Text16, ValidateVisibleAscii, ParseRow, ReadArray32, ParseFiat, FiatThen;
    var row :- ReadRow(reader);
    var commitment :- reader.Array32();
    var fiat :- ReadFiatBytes(reader);
    return Ok(TransferAction(row, commitment, fiat));
  }

  method ReadBatch(reader: Reader, network: Network) returns (r: Result<Action, Error>)
    modifies reader
    ensures Acts(ParseBatch(old(reader.remaining), network), reader, r)
  {
    hide Parsed, LE, Text16, ValidateVisibleAscii, ReadU8, ParseRows, RowsThen;
    var n :- reader.U8();
    if n == 0 || n > 16 {
      return Err(InvalidLength);
    }
    var rows :- ReadRowsSlice(reader, n);
    return Ok(BatchAction(rows, n));
  }

  method ReadGovernance(reader: Reader, network: Network, kind: ActionKind) returns (r: Result<Action, Error>)
    requires IsGovernance(kind)
    modifies reader
    ensures Acts(ParseGovernance(old(reader.remaining), network, kind), reader, r)
  {
    hide Parsed, LE, Text16, ValidateVisibleAscii, ReadU8, ReadU32, Wire.Take, Flat, Chunks, IsGovernance;
    var target :- reader.U8();
    var approval :- reader.U8();
    var cancellation :- reader.U8();
    var timelock :- reader.U32();
    r := ReadSigners(reader, kind, target, approval, cancellation, timelock);
  }

  method ReadSigners(reader: Reader, kind: ActionKind, target: byte, approval: byte, cancellation: byte,
                     timelock: u32) returns (r: Result<Action, Error>)
    requires IsGovernance(kind)
    modifies reader
    ensures Acts(ParseSigners(old(reader.remaining), kind, target, approval, cancellation, timelock), reader, r)
  {
    hide LE, ReadU8, Flat, Chunks;
    var n :- reader.U8();
    if n == 0 || n > 16 {
      return Err(InvalidContext);
    }
    var proposers :- reader.Take(n as int * 32);
    var m :- reader.U8();
    if m == 0 || m > 16 || approval == 0 || approval > m || cancellation == 0 || cancellation > m {
      return Err(InvalidContext);
    }
    var approvers :- reader.Take(m as int * 32);
    return Ok(GovernanceAction(kind, target, approval, cancellation, timelock, proposers, n, approvers, m));
  }

  method ReadPolicy(reader: Reader, network: Network) returns (r: Result<Action, Error>)
    modifies reader
    ensures Acts(ParsePolicy(old(reader.remaining), network), reader, r)
  {
    hide Parsed, LE, Text16, ValidateVisibleAscii, ReadU8, ReadArray32;
    var chainKind :- reader.U8();
    var commitment :- reader.Array32();
    if chainKind != network.ChainKind() {
      return Err(InvalidContext);
    }
    return Ok(DirectAction(PolicyBody(chainKind, commitment)));
  }

  method ReadAssetPolicy(reader: Reader, network: Network) returns (r: Result<Action, Error>)
    modifies reader
    ensures Acts(ParseAssetPolicy(old(reader.remaining), network), reader, r)
  {
    hide Parsed, LE, Text16, ValidateVisibleAscii, ReadU8, ReadArray32, ReadAscii;
    var chainKind :- reader.U8();
    var scopeKind :- reader.U8();
    var decimals :- reader.U8();
    var mint :- reader.Array32();
    var displayAsset :- ReadAsciiText(reader, 16);
    var commitment :- reader.Array32();
    if chainKind != network.ChainKind() || scopeKind != 1 || decimals > 18 || IsZero(mint) {
      return Err(InvalidContext);
    }
    return Ok(DirectAction(AssetPolicyBody(chainKind, scopeKind, decimals, mint, displayAsset, commitment)));
  }

  method ReadEscrowRelease(reader: Reader, network: Network) returns (r: Result<Action, Error>)
    modifies reader
    ensures Acts(ParseEscrowRelease(old(reader.remaining), network), reader, r)
  {
    hide Parsed, LE, Text16, ValidateVisibleAscii, ReadArray32, ReadAscii, ParseRow;
    var escrowId :- ReadAsciiText(reader, 96);
    var escrowTitle :- ReadAsciiText(reader, 96);
    var milestoneId :- ReadAsciiText(reader, 96);
    var milestoneTitle :- ReadAsciiText(reader, 96);
    var payment :- ReadRow(reader);
    var commitment :- reader.Array32();
    return Ok(DirectAction(EscrowReleaseBody(escrowId, escrowTitle, milestoneId, milestoneTitle, payment, commitment)));
  }

  method ReadEscrowReturn(reader: Reader, network: Network) returns (r: Result<Action, Error>)
    modifies reader
    ensures Acts(ParseEscrowReturn(old(reader.remaining), network), reader, r)
  {
    hide Parsed, LE, Text16, ValidateVisibleAscii, ReadU8, ReadArray32, ReadAscii, ParseRows, RowsThen;
    var escrowId :- ReadAsciiText(reader, 96);
    var escrowTitle :- ReadAsciiText(reader, 96);
    var n :- reader.U8();
    if n == 0 || n > 16 {
      return Err(InvalidLength);
    }
    var rows :- ReadRowsSlice(reader, n);
    var commitment :- reader.Array32();
    return Ok(EscrowReturnAction(escrowId, escrowTitle, rows, n, commitment));
  }

  method ReadAgentTrade(reader: Reader, network: Network) returns (r: Result<Action, Error>)
    modifies reader
    ensures Acts(ParseAgentTrade(old(reader.remaining), network), reader, r)
  {
    hide Parsed, LE, Text16, ValidateVisibleAscii, ReadU32, ReadU128, ReadArray32, ReadAscii, Ascii;
    var agentId :- ReadAsciiText(reader, 96);
    var venue :- ReadAsciiText(reader, 96);
    var market :- ReadAsciiText(reader, 96);
    var side :- ReadAsciiText(reader, 96);
    var assetId :- ReadAsciiText(reader, 96);
    r := ReadTradeLimits(reader, agentId, venue, market, side, assetId);
  }

  method ReadTradeLimits(reader: Reader, agentId: seq<byte>, venue: seq<byte>, market: seq<byte>,
                         side: seq<byte>, assetId: seq<byte>) returns (r: Result<Action, Error>)
    modifies reader
    ensures Acts(ParseTradeLimits(old(reader.remaining), agentId, venue, market, side, assetId), reader, r)
  {
    hide LE, Text16, ValidateVisibleAscii, ReadU32, ReadU128, ReadArray32, ReadAscii, Ascii;
    var notional :- reader.U128();
    var leverage :- reader.U32();
    var sessionId :- ReadAsciiText(reader, 96);
    var route :- ReadAsciiText(reader, 96);
    var risk :- reader.Array32();
    if !(side == Ascii("long") || side == Ascii("short")) || notional == 0 || leverage == 0 {
      return Err(InvalidAmount);
    }
    return Ok(DirectAction(AgentTradeBody(agentId, venue, market, side, assetId, notional, leverage,
                                          sessionId, route, risk)));
  }

  method ReadAgentSession(reader: Reader, network: Network) returns (r: Result<Action, Error>)
    modifies reader
    ensures Acts(ParseAgentSession(old(reader.remaining), network), reader, r)
  {
    hide Parsed, LE, Text16, ValidateVisibleAscii, ReadU8, ReadU32, ReadI64, ReadU128, ReadAscii;
    var sessionId :- ReadAsciiText(reader, 96);
    var agentId :- ReadAsciiText(reader, 96);
    var venue :- ReadAsciiText(reader, 96);
    var market :- ReadAsciiText(reader, 96);
    r := ReadSessionLimits(reader, sessionId, agentId, venue, market);
  }

  method ReadSessionLimits(reader: Reader, sessionId: seq<byte>, agentId: seq<byte>, venue: seq<byte>,
                           market: seq<byte>) returns (r: Result<Action, Error>)
    modifies reader
    ensures Acts(ParseSessionLimits(old(reader.remaining), sessionId, agentId, venue, market), reader, r)
  {
    hide LE, ReadU8, ReadU32, ReadI64, ReadU128;
    var notional :- reader.U128();
    var leverage :- reader.U32();
    var expiry :- reader.I64();
    var status :- reader.U8();
    if notional == 0 || leverage == 0 || !(status == 1 || status == 2) {
      return Err(InvalidContext);
    }
    return Ok(DirectAction(AgentSessionBody(sessionId, agentId, venue, market, notional, leverage, expiry, status)));
  }

  method ReadAgentRisk(reader: Reader, network: Network) returns (r: Result<Action, Error>)
    modifies reader
    ensures Acts(ParseAgentRisk(old(reader.remaining), network), reader, r)
  {
    hide Parsed, LE, Text16, ValidateVisibleAscii, ReadU8, ReadU128, ReadArray32, ReadAscii;
    var sessionId :- ReadAsciiText(reader, 96);
    var oracle :- reader.Array32();
    var maxLoss :- reader.U128();
    var status :- reader.U8();
    if !(status == 1 || status == 2) || (status == 1 && maxLoss == 0) {
      return Err(InvalidContext);
    }
    return Ok(DirectAction(AgentRiskBody(sessionId, oracle, maxLoss, status)));
  }

  method ReadAgentSettlement(reader: Reader, network: Network) returns (r: Result<Action, Error>)
    modifies reader
    ensures Acts(ParseAgentSettlement(old(reader.remaining), network), reader, r)
  {
    hide Parsed, LE, Text16, ValidateVisibleAscii, ReadU8, ReadU64, ReadU128, ReadArray32, ReadAscii;
    var sessionId :- ReadAsciiText(reader, 96);
    var executionId :- ReadAsciiText(reader, 96);
    var artifact :- reader.Array32();
    var oracle :- reader.Array32();
    var closed :- reader.U128();
    var outcome :- reader.U8();
    var pnl :- reader.U128();
    var sequence :- reader.U64();
    if closed == 0 || !(1 <= outcome <= 3) || (outcome == 3 && pnl != 0) || (outcome != 3 && pnl == 0) {
      return Err(InvalidAmount);
    }
    return Ok(DirectAction(AgentSettlementBody(sessionId, executionId, artifact, oracle, closed, outcome,
                                               pnl, sequence)));
  }

  method ReadRecurring(reader: Reader, network: Network) returns (r: Result<Action, Error>)
    modifies reader
    ensures Acts(ParseRecurring(old(reader.remaining), network), reader, r)
  {
    hide Parsed, LE, Text16, ValidateVisibleAscii, ReadU8, ReadU32, ReadI64, ReadArray32, ReadAscii, ParseRow, NativeSol, SplToken;
    var scheduleId :- ReadAsciiText(reader, 96);
    var payment :- ReadRow(reader);
    if !NativeSol(payment) && !SplToken(payment) {
      return Err(InvalidContext);
    }
    var commitment: Bytes32 := ZERO32;
    if SplToken(payment) {
      var value :- reader.Array32();
      if IsZero(value) {
        return Err(InvalidContext);
      }
      commitment := value;
    }
    r := ReadTerms(reader, scheduleId, payment, commitment);
  }

  method ReadTerms(reader: Reader, scheduleId: seq<byte>, payment: TransferRow, commitment: Bytes32)
    returns (r: Result<Action, Error>)
    modifies reader
    ensures Acts(ParseTerms(old(reader.remaining), scheduleId, payment, commitment), reader, r)
  {
    hide LE, ReadU8, ReadU32, ReadI64;
    var interval :- reader.U32();
    var first :- reader.I64();
    var count :- reader.U32();
    var status :- reader.U8();
    if interval < 3600 || count == 0 || count > 1000 || !(status == 1 || status == 2) {
      return Err(InvalidContext);
    }
    return Ok(DirectAction(RecurringBody(scheduleId, payment, commitment, interval, first, count, status)));
  }

  method ReadAction(reader: Reader, kind: ActionKind, network: Network) returns (r: Result<Action, Error>)
    modifies reader
    ensures Acts(ParseBody(old(reader.remaining), kind, network), reader, r)
  {
    hide ParseSend, ParseBatch, ParseGovernance, ParsePolicy, ParseAssetPolicy, ParseEscrowRelease,
      ParseEscrowReturn, ParseAgentTrade, ParseAgentSession, ParseAgentRisk, ParseAgentSettlement,
      ParseRecurring, ActionOf, Parsed;
    match kind {
      case Send => r := ReadSend(reader, network);
      case BatchSend => r := ReadBatch(reader, network);
      case AddMember | RemoveMember | ChangeThreshold => r := ReadGovernance(reader, network, kind);
      case SetProtection => r := ReadPolicy(reader, network);
      case SetAssetProtection => r := ReadAssetPolicy(reader, network);
      case ReleaseMilestone => r := ReadEscrowRelease(reader, network);
      case ReturnEscrowFunds => r := ReadEscrowReturn(reader, network);
      case AgentTradeApproval => r := ReadAgentTrade(reader, network);
      case AgentSessionGrant => r := ReadAgentSession(reader, network);
      case AgentRiskPolicy => r := ReadAgentRisk(reader, network);
      case AgentTradeSettlement => r := ReadAgentSettlement(reader, network);
      case RecurringSchedule => r := ReadRecurring(reader, network);
      case RecoveryAction | SwapIntent => r := Err(UnsupportedAction);
    }
  }

  method ReadHeader(reader: Reader) returns (r: Result<(DeviceProfile, ActionKind, Network), Error>)
    modifies reader
    ensures reader.Reads(ParseHeader(old(reader.remaining)), r)
  {
    hide Wire.Take, ReadU8, ActionKind.FromCode, Network.FromCode, DeviceProfile.FromCode;
    var magic :- reader.Take(8);
    if magic != INTENT_MAGIC {
      return Err(InvalidMagic);
    }
    var version :- reader.U8();
    if version != INTENT_VERSION {
      return Err(UnsupportedVersion);
    }
    var pc :- reader.U8();
    var profile :- DeviceProfile.FromCode(pc);
    var kc :- reader.U8();
    var kind :- ActionKind.FromCode(kc);
    var nc :- reader.U8();
    var network :- Network.FromCode(nc);
    return Ok((profile, kind, network));
  }

  method ReadCommon(reader: Reader) returns (r: Result<(CommonFields, ActionKind), Error>)
    modifies reader
    ensures reader.Reads(ParseCommon(old(reader.remaining)), r)
  {
    hide CommonThen, LE, ParseHeader, ReadU8, ReadU64, ReadI64, ReadArray32;
    var header :- ReadHeader(reader);
    var (profile, kind, network) := header;
    var proposalIndex :- reader.U64();
    var walletId :- reader.Array32();
    var actor :- reader.Array32();
    var actionId :- reader.Array32();
    var nonce :- reader.Array32();
    var expiresAt :- reader.I64();
    var policyCommitment :- reader.Array32();
    var approvalRequired :- reader.U8();
    if approvalRequired == 0 || approvalRequired > 16 {
      return Err(InvalidContext);
    }
    return Ok((CommonFields(profile, network, proposalIndex, walletId, actor, actionId, nonce, expiresAt,
                            policyCommitment, approvalRequired), kind));
  }

  /** `parse_intent`: the cursor-driven parser returns the intent of the pure one, slices included,
      or the same error. */
  method ParseIntent(bytes: seq<byte>) returns (r: Result<Intent, Error>)
    ensures match Parse(bytes)
            case Ok(q) => r == Ok(IntentOf(q)) && r.value.encoded == bytes
            case Err(e) => r == Err(e)
  {
    hide ParseCommon, ParseBody, ReadBytes, ActionOf, Serialize, Parsed, Accepted;
    if |bytes| > MAX_CANONICAL_INTENT_BYTES {
      return Err(InvalidLength);
    }
    var reader := new Reader(bytes);
    var header :- ReadCommon(reader);
    var (common, kind) := header;
    var action :- ReadAction(reader, kind, common.network);
    var reason :- reader.Bytes(MAX_REASON_BYTES);
    var _ :- ValidateVisibleAscii(reason, MAX_REASON_BYTES, true);
    if reader.remaining != [] {
      return Err(TrailingBytes);
    }
    return Ok(Intent(common, action, reason, bytes));
  }

  /** Draining the row iterator of a batch or an escrow return. */
  method CollectRows(encoded: seq<byte>, count: nat) returns (rows: seq<TransferRow>)
    ensures rows == Rows(encoded, count)
  {
    hide ParseRow, RowThen;
    var reader := new Reader(encoded);
    var left := count;
    rows := [];
    while left > 0
      invariant 0 <= left && rows + Rows(reader.remaining, left) == Rows(encoded, count)
    {
      left := left - 1;
      ghost var before := rows;
      var row := ReadRow(reader);
      if row.Err? {
        assert rows + [] == rows;
        return;
      }
      rows := rows + [row.value];
      assert before + ([row.value] + Rows(reader.remaining, left)) == rows + Rows(reader.remaining, left);
    }
    assert rows + [] == rows;
  }
}

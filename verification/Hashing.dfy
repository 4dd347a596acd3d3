/** The hash computations of the signer and of the executors, fed step by step. */
module Hashing {
  import opened Base
  import opened Model
  import opened Wire
  import opened Payload
  import CodecLaws
  import Codec

  /** A running digest: the bytes it has been fed so far. */
  class Hasher {
    const sha: Sha
    var fed: seq<byte>

    constructor (sha: Sha)
      ensures this.sha == sha && fed == []
    {
      this.sha := sha;
      fed := [];
    }

    method Update(value: seq<byte>)
      modifies this
      ensures fed == old(fed) + value
    {
      fed := fed + value;
    }

    method UpdateBytes(value: seq<byte>)
      modifies this
      ensures fed == old(fed) + Prefixed(value, [])
    {
      hide LE;
      PrefixedAppend(fed, value);
      Update(LE(|value| % 0x1_0000_0000, 4));
      Update(value);
    }

    method UpdateIdentity(encoding: IdentityEncoding, value: seq<byte>)
      modifies this
      ensures fed == old(fed) + Prefixed(Committed(sha, encoding, value), [])
    {
      if encoding.Sha256Text? {
        UpdateBytes(sha(value));
      } else {
        UpdateBytes(value);
      }
    }

    method UpdateCommitment(c: Bytes32)
      modifies this
      ensures fed == old(fed) + CommitmentThen(c, [])
    {
      hide Prefixed, Ascii, CommitmentThen;
      CommitmentAppend(fed, c);
      if !IsZero(c) {
        UpdateBytes(Ascii("execution_template"));
        Update(c);
      }
    }

    /** Recipient, asset and amount, as committed. */
    method UpdateRow(row: RowContent)
      modifies this
      ensures fed == old(fed) + RowContentThen(row, [])
    {
      hide Prefixed, RowContentThen;
      RowContentAppend(fed, row);
      UpdateBytes(row.recipient);
      UpdateBytes(row.asset);
      Update(LE(row.rawAmount, 16));
    }

    method UpdateTransferRow(row: TransferRow)
      modifies this
      ensures fed == old(fed) + RowContentThen(RowContentOf(sha, row), [])
    {
      hide Prefixed, RowContentThen, Committed;
      RowContentAppend(fed, RowContentOf(sha, row));
      UpdateIdentity(row.recipientEncoding, row.recipient);
      UpdateIdentity(row.assetEncoding, row.asset);
      Update(LE(row.rawAmount, 16));
    }

    method UpdateTransferRows(rows: seq<TransferRow>)
      modifies this
      ensures fed == old(fed) + RowContentsThen(RowContents(sha, rows), [])
    {
      hide RowContentThen;
      ghost var before := fed;
      for i := 0 to |rows|
        invariant fed == before + RowContentsThen(RowContents(sha, rows[..i]), [])
      {
        assert rows[..i + 1] == rows[..i] + [rows[i]];
        RowContentsAppend(sha, rows[..i], rows[i]);
        RowContentsSnoc(RowContents(sha, rows[..i]), RowContentOf(sha, rows[i]));
        UpdateTransferRow(rows[i]);
      }
      assert rows[..|rows|] == rows;
    }

    method UpdateRows(rows: seq<RowContent>)
      modifies this
      ensures fed == old(fed) + RowContentsThen(rows, [])
    {
      hide RowContentThen;
      ghost var before := fed;
      for i := 0 to |rows|
        invariant fed == before + RowContentsThen(rows[..i], [])
      {
        assert rows[..i + 1] == rows[..i] + [rows[i]];
        RowContentsSnoc(rows[..i], rows[i]);
        UpdateRow(rows[i]);
      }
      assert rows[..|rows|] == rows;
    }

    method Finalize() returns (digest: Bytes32)
      ensures digest == sha(fed)
    {
      digest := sha(fed);
    }
  }

  // ----- Layouts as what is fed -----

  lemma PrefixedAppend(b: seq<byte>, v: seq<byte>)
    ensures b + Prefixed(v, []) == b + LE(|v| % 0x1_0000_0000, 4) + v
  {
    hide LE;
    Nothing(v);
    Assoc(b, LE(|v| % 0x1_0000_0000, 4), v);
  }

  lemma PrefixedStep(v: seq<byte>, t: seq<byte>, u: seq<byte>)
    ensures Prefixed(v, t + u) == Prefixed(v, t) + u
  {
    hide LE;
    Assoc(v, t, u);
    Assoc(LE(|v| % 0x1_0000_0000, 4), v + t, u);
  }

  lemma PrefixedSplit(v: seq<byte>, t: seq<byte>)
    ensures Prefixed(v, t) == Prefixed(v, []) + t
  {
    hide Prefixed;
    Nothing(t);
    PrefixedStep(v, [], t);
  }

  lemma CommitmentAppend(b: seq<byte>, c: Bytes32)
    ensures b + CommitmentThen(c, []) == if IsZero(c) then b else b + Prefixed(Ascii("execution_template"), []) + c
  {
    hide Prefixed, Ascii;
    var tag := Ascii("execution_template");
    Nothing(b);
    Nothing(c);
    PrefixedSplit(tag, c);
    Assoc(b, Prefixed(tag, []), c);
  }

  lemma RowContentAppend(b: seq<byte>, row: RowContent)
    ensures b + RowContentThen(row, []) == b + Prefixed(row.recipient, []) + Prefixed(row.asset, []) + LE(row.rawAmount, 16)
  {
    hide LE, Prefixed;
    var amount := LE(row.rawAmount, 16);
    Nothing(amount);
    PrefixedSplit(row.asset, amount);
    PrefixedSplit(row.recipient, Prefixed(row.asset, []) + amount);
    Assoc(b, Prefixed(row.recipient, []), Prefixed(row.asset, []) + amount);
    Assoc(b + Prefixed(row.recipient, []), Prefixed(row.asset, []), amount);
  }

  lemma {:induction false} RowContentsAppend(sha: Sha, rows: seq<TransferRow>, row: TransferRow)
    ensures RowContents(sha, rows + [row]) == RowContents(sha, rows) + [RowContentOf(sha, row)]
  {
    if rows == [] {
      assert ([] + [row])[1..] == [];
    } else {
      RowContentsAppend(sha, rows[1..], row);
      assert (rows + [row])[1..] == rows[1..] + [row];
    }
  }

  lemma RowContentSplit(row: RowContent, t: seq<byte>)
    ensures RowContentThen(row, t) == RowContentThen(row, []) + t
  {
    hide LE, Prefixed;
    var amount := LE(row.rawAmount, 16);
    Nothing(amount);
    PrefixedStep(row.asset, amount, t);
    PrefixedStep(row.recipient, Prefixed(row.asset, amount), t);
  }

  lemma {:induction false} RowContentsSplit(rows: seq<RowContent>, t: seq<byte>)
    ensures RowContentsThen(rows, t) == RowContentsThen(rows, []) + t
  {
    hide RowContentThen;
    if rows == [] {
      Nothing(t);
    } else {
      var t0, t1 := RowContentsThen(rows[1..], []), RowContentsThen(rows[1..], t);
      RowContentsSplit(rows[1..], t);
      RowContentSplit(rows[0], t0);
      RowContentSplit(rows[0], t1);
      Assoc(RowContentThen(rows[0], []), t0, t);
    }
  }

  lemma {:induction false} RowContentsSnoc(rows: seq<RowContent>, row: RowContent)
    ensures RowContentsThen(rows + [row], []) == RowContentsThen(rows, []) + RowContentThen(row, [])
  {
    hide RowContentThen;
    if rows == [] {
      assert ([] + [row])[1..] == [];
    } else {
      RowContentsSnoc(rows[1..], row);
      assert (rows + [row])[1..] == rows[1..] + [row];
      RowContentSplit(rows[0], RowContentsThen(rows[1..] + [row], []));
      RowContentSplit(rows[0], RowContentsThen(rows[1..], []));
    }
  }

  lemma CommitmentSplit(c: Bytes32, t: seq<byte>)
    ensures CommitmentThen(c, t) == CommitmentThen(c, []) + t
  {
    hide LE, Prefixed, Ascii;
    Nothing(t);
    Nothing(c);
    PrefixedStep(Ascii("execution_template"), c, t);
  }

  method PayloadHasher(sha: Sha, kind: ActionKind) returns (h: Hasher)
    ensures fresh(h) && h.sha == sha
    ensures forall c: Content {:trigger ContentBytes(c)} :: h.fed + ContentBytes(c) == Preimage(kind, c)
  {
    hide Prefixed, PAYLOAD_DOMAIN, ActionKind.Code, ContentBytes, Preimage;
    h := new Hasher(sha);
    h.UpdateBytes(PAYLOAD_DOMAIN);
    h.Update([kind.Code()]);
    forall c: Content ensures h.fed + ContentBytes(c) == Preimage(kind, c) {
      PreimageParts(kind, c);
    }
  }

  lemma PreimageParts(kind: ActionKind, c: Content)
    ensures [] + Prefixed(PAYLOAD_DOMAIN, []) + [kind.Code()] + ContentBytes(c) == Preimage(kind, c)
  {
    hide Prefixed, PAYLOAD_DOMAIN, ActionKind.Code, ContentBytes;
    var d := Prefixed(PAYLOAD_DOMAIN, []);
    Nothing(d);
    PrefixedSplit(PAYLOAD_DOMAIN, [kind.Code()] + ContentBytes(c));
    Assoc(d, [kind.Code()], ContentBytes(c));
  }

  // ----- The signer's side -----

  method FeedGovernance(h: Hasher, action: Action, ghost c: Content)
    requires action.GovernanceAction? && c.GovernanceContent?
    requires c.target == action.targetIntentIndex && c.approval == action.approvalThreshold
    requires c.cancellation == action.cancellationThreshold && c.timelock == action.timelockSeconds
    requires Flat(c.proposers) == action.proposers && |c.proposers| == action.proposerCount
    requires Flat(c.approvers) == action.approvers && |c.approvers| == action.approverCount
    modifies h
    ensures h.fed == old(h.fed) + ContentBytes(c)
  {
    hide LE, Prefixed, ContentBytes, Flat;
    ghost var before := h.fed;
    h.UpdateBytes(Ascii("intent_governance"));
    h.Update([action.targetIntentIndex]);
    h.Update([action.approvalThreshold]);
    h.Update([action.cancellationThreshold]);
    h.Update(LE(action.timelockSeconds, 4));
    h.Update(LE(action.proposerCount, 4));
    h.Update(action.proposers);
    h.Update(LE(action.approverCount, 4));
    h.Update(action.approvers);
    GovernanceParts(before, action, c);
  }

  lemma GovernanceParts(before: seq<byte>, action: Action, c: Content)
    requires action.GovernanceAction? && c.GovernanceContent?
    requires c.target == action.targetIntentIndex && c.approval == action.approvalThreshold
    requires c.cancellation == action.cancellationThreshold && c.timelock == action.timelockSeconds
    requires Flat(c.proposers) == action.proposers && |c.proposers| == action.proposerCount
    requires Flat(c.approvers) == action.approvers && |c.approvers| == action.approverCount
    ensures before + Prefixed(Ascii("intent_governance"), []) + [action.targetIntentIndex]
            + [action.approvalThreshold] + [action.cancellationThreshold] + LE(action.timelockSeconds, 4)
            + LE(action.proposerCount, 4) + action.proposers + LE(action.approverCount, 4)
            + action.approvers
            == before + ContentBytes(c)
  {
    hide LE, Flat, Prefixed, Ascii;
    var tag := Prefixed(Ascii("intent_governance"), []);
    var signers := action.proposers + (LE(action.approverCount, 4) + action.approvers);
    var terms := LE(action.timelockSeconds, 4) + (LE(action.proposerCount, 4) + signers);
    PrefixedSplit(Ascii("intent_governance"), [action.targetIntentIndex] + ([action.approvalThreshold]
      + ([action.cancellationThreshold] + terms)));
    var b3 := before + tag + [action.targetIntentIndex] + [action.approvalThreshold];
    Regroup(before, tag, [action.targetIntentIndex], [action.approvalThreshold], [action.cancellationThreshold] + terms);
    var b6 := b3 + [action.cancellationThreshold] + LE(action.timelockSeconds, 4) + LE(action.proposerCount, 4);
    Regroup(b3, [action.cancellationThreshold], LE(action.timelockSeconds, 4), LE(action.proposerCount, 4), signers);
    Assoc(b6, action.proposers, LE(action.approverCount, 4) + action.approvers);
    Assoc(b6 + action.proposers, LE(action.approverCount, 4), action.approvers);
  }

  method FeedPolicy(h: Hasher, body: Body)
    requires body.PolicyBody?
    modifies h
    ensures h.fed == old(h.fed) + ContentBytes(ContentOf(h.sha, body))
  {
    hide LE, Prefixed, ContentBytes, ContentOf;
    ghost var before := h.fed;
    h.UpdateBytes(Ascii("wallet_policy"));
    h.Update([body.chainKind]);
    h.Update(body.newPolicyCommitment);
    PolicyParts(before, h.sha, body);
  }

  lemma PolicyParts(before: seq<byte>, sha: Sha, body: Body)
    requires body.PolicyBody?
    ensures before + Prefixed(Ascii("wallet_policy"), []) + [body.chainKind] + body.newPolicyCommitment
            == before + ContentBytes(ContentOf(sha, body))
  {
    hide LE, Prefixed, Ascii;
    PrefixedSplit(Ascii("wallet_policy"), [body.chainKind] + body.newPolicyCommitment);
    Assoc(before, Prefixed(Ascii("wallet_policy"), []), [body.chainKind] + body.newPolicyCommitment);
    Assoc(before + Prefixed(Ascii("wallet_policy"), []), [body.chainKind], body.newPolicyCommitment);
  }

  method FeedAssetPolicy(h: Hasher, body: Body)
    requires body.AssetPolicyBody?
    modifies h
    ensures h.fed == old(h.fed) + ContentBytes(ContentOf(h.sha, body))
  {
    hide LE, Prefixed, ContentBytes, ContentOf;
    ghost var before := h.fed;
    h.UpdateBytes(Ascii("asset_policy"));
    h.Update([body.chainKind, body.scopeKind, body.decimals]);
    h.Update(body.mint);
    h.UpdateBytes(body.displayAsset);
    h.Update(body.newPolicyCommitment);
    AssetPolicyParts(before, h.sha, body);
  }

  lemma AssetPolicyParts(before: seq<byte>, sha: Sha, body: Body)
    requires body.AssetPolicyBody?
    ensures before + Prefixed(Ascii("asset_policy"), []) + [body.chainKind, body.scopeKind, body.decimals]
            + body.mint + Prefixed(body.displayAsset, []) + body.newPolicyCommitment
            == before + ContentBytes(ContentOf(sha, body))
  {
    hide LE, Prefixed, Ascii;
    var tag, codes := Prefixed(Ascii("asset_policy"), []), [body.chainKind, body.scopeKind, body.decimals];
    var last := Prefixed(body.displayAsset, []) + body.newPolicyCommitment;
    PrefixedSplit(body.displayAsset, body.newPolicyCommitment);
    PrefixedSplit(Ascii("asset_policy"), codes + (body.mint + last));
    Regroup(before, tag, codes, body.mint, last);
    Assoc(before + tag + codes + body.mint, Prefixed(body.displayAsset, []), body.newPolicyCommitment);
  }

  method FeedRelease(h: Hasher, body: Body)
    requires body.EscrowReleaseBody?
    modifies h
    ensures h.fed == old(h.fed) + ContentBytes(ContentOf(h.sha, body))
  {
    hide LE, Prefixed, ContentBytes, ContentOf, RowContentThen, CommitmentThen, RowContentOf;
    ghost var before := h.fed;
    h.UpdateBytes(h.sha(body.escrowId));
    h.UpdateBytes(h.sha(body.milestoneId));
    h.UpdateTransferRow(body.payment);
    h.UpdateCommitment(body.executionCommitment);
    ReleaseParts(before, h.sha, body);
  }

  lemma ReleaseParts(before: seq<byte>, sha: Sha, body: Body)
    requires body.EscrowReleaseBody?
    ensures before + Prefixed(sha(body.escrowId), []) + Prefixed(sha(body.milestoneId), [])
            + RowContentThen(RowContentOf(sha, body.payment), [])
            + CommitmentThen(body.executionCommitment, [])
            == before + ContentBytes(ContentOf(sha, body))
  {
    hide LE, Prefixed, RowContentThen, CommitmentThen, RowContentOf;
    var row, c := RowContentOf(sha, body.payment), CommitmentThen(body.executionCommitment, []);
    RowContentSplit(row, c);
    PrefixedSplit(sha(body.milestoneId), RowContentThen(row, []) + c);
    PrefixedSplit(sha(body.escrowId), Prefixed(sha(body.milestoneId), []) + (RowContentThen(row, []) + c));
    Regroup(before, Prefixed(sha(body.escrowId), []), Prefixed(sha(body.milestoneId), []), RowContentThen(row, []), c);
  }

  method FeedTrade(h: Hasher, body: Body)
    requires body.AgentTradeBody?
    modifies h
    ensures h.fed == old(h.fed) + ContentBytes(ContentOf(h.sha, body))
  {
    hide LE, Prefixed, ContentBytes, ContentOf;
    ghost var before := h.fed;
    ghost var c := TradeOf(h.sha, body);
    h.UpdateBytes(h.sha(body.agentId));
    h.UpdateBytes(h.sha(body.venue));
    h.UpdateBytes(h.sha(body.market));
    h.UpdateBytes(h.sha(body.side));
    h.UpdateBytes(h.sha(body.assetId));
    h.Update(LE(body.maxNotionalRaw, 16));
    h.Update(LE(body.maxLeverageX100, 4));
    h.UpdateBytes(h.sha(body.sessionId));
    h.UpdateBytes(h.sha(body.route));
    h.UpdateBytes(body.riskCheckHash);
    TradeParts(before, c);
  }

  lemma TradeOf(sha: Sha, body: Body) returns (c: Content)
    requires body.AgentTradeBody?
    ensures c == ContentOf(sha, body)
    ensures c == TradeContent(sha(body.agentId), sha(body.venue), sha(body.market), sha(body.side), sha(body.assetId),
      body.maxNotionalRaw, body.maxLeverageX100, sha(body.sessionId), sha(body.route), body.riskCheckHash)
  {
    c := ContentOf(sha, body);
  }

  lemma TradeParts(before: seq<byte>, c: Content)
    requires c.TradeContent?
    ensures before + Prefixed(c.agent, []) + Prefixed(c.venue, []) + Prefixed(c.market, []) + Prefixed(c.side, [])
            + Prefixed(c.asset, []) + LE(c.notional, 16) + LE(c.leverage, 4) + Prefixed(c.session, [])
            + Prefixed(c.route, []) + Prefixed(c.risk, []) == before + ContentBytes(c)
  {
    hide LE, Prefixed;
    var risk := Prefixed(c.risk, []);
    var last := Prefixed(c.route, []) + risk;
    PrefixedSplit(c.route, risk);
    PrefixedSplit(c.session, last);
    var limits := LE(c.notional, 16) + (LE(c.leverage, 4) + (Prefixed(c.session, []) + last));
    PrefixedSplit(c.asset, limits);
    var a := Prefixed(c.asset, []) + limits;
    PrefixedSplit(c.side, a);
    PrefixedSplit(c.market, Prefixed(c.side, []) + a);
    PrefixedSplit(c.venue, Prefixed(c.market, []) + (Prefixed(c.side, []) + a));
    PrefixedSplit(c.agent, Prefixed(c.venue, []) + (Prefixed(c.market, []) + (Prefixed(c.side, []) + a)));
    var b3 := before + Prefixed(c.agent, []) + Prefixed(c.venue, []) + Prefixed(c.market, []);
    Regroup(before, Prefixed(c.agent, []), Prefixed(c.venue, []), Prefixed(c.market, []), Prefixed(c.side, []) + a);
    var b6 := b3 + Prefixed(c.side, []) + Prefixed(c.asset, []) + LE(c.notional, 16);
    Regroup(b3, Prefixed(c.side, []), Prefixed(c.asset, []), LE(c.notional, 16), LE(c.leverage, 4) + (Prefixed(c.session, []) + last));
    Regroup(b6, LE(c.leverage, 4), Prefixed(c.session, []), Prefixed(c.route, []), risk);
  }

  method FeedSession(h: Hasher, body: Body)
    requires body.AgentSessionBody?
    modifies h
    ensures h.fed == old(h.fed) + ContentBytes(ContentOf(h.sha, body))
  {
    hide LE, Prefixed, ContentBytes, ContentOf;
    ghost var before := h.fed;
    h.UpdateBytes(Ascii("agent_session"));
    h.Update(h.sha(body.sessionId));
    h.Update(h.sha(body.agentId));
    h.Update(h.sha(body.venue));
    h.Update(h.sha(body.market));
    h.Update(LE(body.maxNotionalRaw, 16));
    h.Update(LE(body.maxLeverageX100, 4));
    h.Update(LE(Twos(body.sessionExpiresAt), 8));
    h.Update([body.status]);
    SessionParts(before, h.sha, body);
  }

  lemma SessionParts(before: seq<byte>, sha: Sha, body: Body)
    requires body.AgentSessionBody?
    ensures before + Prefixed(Ascii("agent_session"), []) + sha(body.sessionId) + sha(body.agentId)
            + sha(body.venue) + sha(body.market) + LE(body.maxNotionalRaw, 16)
            + LE(body.maxLeverageX100, 4) + LE(Twos(body.sessionExpiresAt), 8) + [body.status]
            == before + ContentBytes(ContentOf(sha, body))
  {
    hide LE, Prefixed, Ascii;
    var tag := Ascii("agent_session");
    var limits := LE(body.maxNotionalRaw, 16) + (LE(body.maxLeverageX100, 4)
      + (LE(Twos(body.sessionExpiresAt), 8) + [body.status]));
    var names := sha(body.sessionId) + (sha(body.agentId) + (sha(body.venue) + (sha(body.market) + limits)));
    PrefixedSplit(tag, names);
    var b3 := before + Prefixed(tag, []) + sha(body.sessionId) + sha(body.agentId);
    Regroup(before, Prefixed(tag, []), sha(body.sessionId), sha(body.agentId), sha(body.venue) + (sha(body.market) + limits));
    Assoc(b3, sha(body.venue), sha(body.market) + limits);
    Assoc(b3 + sha(body.venue), sha(body.market), limits);
    Regroup(b3 + sha(body.venue) + sha(body.market), LE(body.maxNotionalRaw, 16), LE(body.maxLeverageX100, 4),
      LE(Twos(body.sessionExpiresAt), 8), [body.status]);
  }

  method FeedRisk(h: Hasher, body: Body)
    requires body.AgentRiskBody?
    modifies h
    ensures h.fed == old(h.fed) + ContentBytes(ContentOf(h.sha, body))
  {
    hide LE, Prefixed, ContentBytes, ContentOf;
    ghost var before := h.fed;
    h.UpdateBytes(Ascii("agent_risk_policy"));
    h.Update(h.sha(body.sessionId));
    h.Update(body.oraclePolicyHash);
    h.Update(LE(body.maxLossRaw, 16));
    h.Update([body.status]);
    RiskParts(before, h.sha, body);
  }

  lemma RiskParts(before: seq<byte>, sha: Sha, body: Body)
    requires body.AgentRiskBody?
    ensures before + Prefixed(Ascii("agent_risk_policy"), []) + sha(body.sessionId) + body.oraclePolicyHash
            + LE(body.maxLossRaw, 16) + [body.status]
            == before + ContentBytes(ContentOf(sha, body))
  {
    hide LE, Prefixed, Ascii;
    var tag := Ascii("agent_risk_policy");
    var last := LE(body.maxLossRaw, 16) + [body.status];
    PrefixedSplit(tag, sha(body.sessionId) + (body.oraclePolicyHash + last));
    Regroup(before, Prefixed(tag, []), sha(body.sessionId), body.oraclePolicyHash, last);
    Assoc(before + Prefixed(tag, []) + sha(body.sessionId) + body.oraclePolicyHash, LE(body.maxLossRaw, 16), [body.status]);
  }

  method FeedSettlement(h: Hasher, body: Body)
    requires body.AgentSettlementBody?
    modifies h
    ensures h.fed == old(h.fed) + ContentBytes(ContentOf(h.sha, body))
  {
    hide LE, Prefixed, ContentBytes, ContentOf;
    ghost var before := h.fed;
    h.UpdateBytes(Ascii("agent_trade_settlement"));
    h.Update(h.sha(body.sessionId));
    h.Update(h.sha(body.executionId));
    h.Update(body.settlementArtifactHash);
    h.Update(body.oraclePolicyHash);
    h.Update(LE(body.closedNotionalRaw, 16));
    h.Update([body.outcome]);
    h.Update(LE(body.pnlAbsRaw, 16));
    h.Update(LE(body.settlementSequence, 8));
    SettlementParts(before, h.sha, body);
  }

  lemma SettlementParts(before: seq<byte>, sha: Sha, body: Body)
    requires body.AgentSettlementBody?
    ensures before + Prefixed(Ascii("agent_trade_settlement"), []) + sha(body.sessionId)
            + sha(body.executionId) + body.settlementArtifactHash + body.oraclePolicyHash
            + LE(body.closedNotionalRaw, 16) + [body.outcome] + LE(body.pnlAbsRaw, 16)
            + LE(body.settlementSequence, 8)
            == before + ContentBytes(ContentOf(sha, body))
  {
    hide LE, Prefixed, Ascii;
    var tag := Ascii("agent_trade_settlement");
    var last := [body.outcome] + (LE(body.pnlAbsRaw, 16) + LE(body.settlementSequence, 8));
    var figures := body.oraclePolicyHash + (LE(body.closedNotionalRaw, 16) + last);
    PrefixedSplit(tag, sha(body.sessionId) + (sha(body.executionId) + (body.settlementArtifactHash + figures)));
    var b3 := before + Prefixed(tag, []) + sha(body.sessionId) + sha(body.executionId);
    Regroup(before, Prefixed(tag, []), sha(body.sessionId), sha(body.executionId), body.settlementArtifactHash + figures);
    var b6 := b3 + body.settlementArtifactHash + body.oraclePolicyHash + LE(body.closedNotionalRaw, 16);
    Regroup(b3, body.settlementArtifactHash, body.oraclePolicyHash, LE(body.closedNotionalRaw, 16), last);
    Assoc(b6, [body.outcome], LE(body.pnlAbsRaw, 16) + LE(body.settlementSequence, 8));
    Assoc(b6 + [body.outcome], LE(body.pnlAbsRaw, 16), LE(body.settlementSequence, 8));
  }

  /** The tail of a recurring schedule, shared by signer and executor. */
  method FeedSchedule(h: Hasher, c: Content)
    requires c.RecurringContent?
    modifies h
    ensures h.fed == old(h.fed) + CommitmentThen(c.commitment, LE(c.interval, 4)
                     + (LE(Twos(c.first), 8) + (LE(c.count, 4) + [c.status])))
  {
    hide LE, CommitmentThen;
    ghost var before := h.fed;
    ghost var t := LE(c.interval, 4) + (LE(Twos(c.first), 8) + (LE(c.count, 4) + [c.status]));
    h.UpdateCommitment(c.commitment);
    h.Update(LE(c.interval, 4));
    h.Update(LE(Twos(c.first), 8));
    h.Update(LE(c.count, 4));
    h.Update([c.status]);
    CommitmentSplit(c.commitment, t);
    TermsParts(before + CommitmentThen(c.commitment, []), c);
    assert before + (CommitmentThen(c.commitment, []) + t) == before + CommitmentThen(c.commitment, []) + t;
  }

  lemma TermsParts(b: seq<byte>, c: Content)
    requires c.RecurringContent?
    ensures b + LE(c.interval, 4) + LE(Twos(c.first), 8) + LE(c.count, 4) + [c.status]
            == b + (LE(c.interval, 4) + (LE(Twos(c.first), 8) + (LE(c.count, 4) + [c.status])))
  {
    hide LE;
    Regroup(b, LE(c.interval, 4), LE(Twos(c.first), 8), LE(c.count, 4), [c.status]);
  }

  method FeedRecurring(h: Hasher, body: Body)
    requires body.RecurringBody?
    modifies h
    ensures h.fed == old(h.fed) + ContentBytes(ContentOf(h.sha, body))
  {
    hide LE, Prefixed, ContentBytes, RowContentThen, CommitmentThen, RowContentOf;
    ghost var before := h.fed;
    var RecurringBody(scheduleId, payment, commitment, interval, first, count, status) := body;
    var c := RecurringContent(h.sha(scheduleId), RowContentOf(h.sha, payment), commitment, interval, first, count, status);
    h.UpdateBytes(h.sha(scheduleId));
    h.UpdateTransferRow(payment);
    FeedSchedule(h, c);
    ScheduleParts(before, c);
  }

  lemma ScheduleParts(before: seq<byte>, c: Content)
    requires c.RecurringContent?
    ensures before + Prefixed(c.schedule, []) + RowContentThen(c.row, [])
            + CommitmentThen(c.commitment, LE(c.interval, 4) + (LE(Twos(c.first), 8) + (LE(c.count, 4) + [c.status])))
            == before + ContentBytes(c)
  {
    hide LE, RowContentThen, CommitmentThen, Prefixed;
    var terms := CommitmentThen(c.commitment, LE(c.interval, 4) + (LE(Twos(c.first), 8) + (LE(c.count, 4) + [c.status])));
    RowContentSplit(c.row, terms);
    PrefixedSplit(c.schedule, RowContentThen(c.row, []) + terms);
    Assoc(before, Prefixed(c.schedule, []), RowContentThen(c.row, []) + terms);
    Assoc(before + Prefixed(c.schedule, []), RowContentThen(c.row, []), terms);
  }

  lemma ReturnParts(before: seq<byte>, c: Content)
    requires c.ReturnContent?
    ensures before + Prefixed(c.escrow, []) + LE(|c.rows| % 0x1_0000_0000, 4) + RowContentsThen(c.rows, [])
            + CommitmentThen(c.commitment, []) == before + ContentBytes(c)
  {
    hide LE, RowContentsThen, CommitmentThen, Prefixed;
    var n, last := LE(|c.rows| % 0x1_0000_0000, 4), CommitmentThen(c.commitment, []);
    RowContentsSplit(c.rows, last);
    PrefixedSplit(c.escrow, n + (RowContentsThen(c.rows, []) + last));
    Regroup(before, Prefixed(c.escrow, []), n, RowContentsThen(c.rows, []), last);
  }

  method FeedBatch(h: Hasher, encodedRows: seq<byte>, rowCount: byte, ghost q: Request)
    requires Accepted(q) && q.body.BatchBody? && |RowsOf(q.body)| == rowCount
    requires encodedRows == RowsThen(RowsOf(q.body), [])
    modifies h
    ensures h.fed == old(h.fed) + ContentBytes(ContentOf(h.sha, q.body))
  {
    hide ContentBytes, Accepted, RowContentsThen, Rows, RowsThen, RowContents;
    RowsExactFor(q);
    BatchParts(h.fed, ContentOf(h.sha, q.body));
    h.Update(LE(rowCount, 4));
    var rows := Codec.CollectRows(encodedRows, rowCount);
    h.UpdateTransferRows(rows);
  }

  lemma ReturnOf(sha: Sha, body: Body) returns (c: Content)
    requires body.EscrowReturnBody?
    ensures c == ContentOf(sha, body)
    ensures c == ReturnContent(sha(body.escrowId), RowContents(sha, body.rows), body.executionCommitment)
  {
    c := ContentOf(sha, body);
  }

  method FeedReturn(h: Hasher, escrowId: seq<byte>, encodedRows: seq<byte>, rowCount: byte, commitment: Bytes32,
                    ghost q: Request)
    requires Accepted(q) && q.body.EscrowReturnBody? && |RowsOf(q.body)| == rowCount
    requires encodedRows == RowsThen(RowsOf(q.body), [])
    requires escrowId == q.body.escrowId && commitment == q.body.executionCommitment
    modifies h
    ensures h.fed == old(h.fed) + ContentBytes(ContentOf(h.sha, q.body))
  {
    hide ContentBytes, ContentOf, Accepted, RowContentsThen, Rows, RowsThen, RowContents, CommitmentThen, Prefixed, LE;
    RowsExactFor(q);
    ghost var c := ReturnOf(h.sha, q.body);
    ReturnParts(h.fed, c);
    h.UpdateBytes(h.sha(escrowId));
    h.Update(LE(rowCount, 4));
    var rows := Codec.CollectRows(encodedRows, rowCount);
    h.UpdateTransferRows(rows);
    h.UpdateCommitment(commitment);
  }

  /** `payload_hash` on a parsed intent. */
  method PayloadHash(sha: Sha, intent: Intent, ghost q: Request) returns (digest: Bytes32)
    requires Accepted(q) && intent == IntentOf(q)
    ensures digest == sha(Preimage(q.body.Kind(), ContentOf(sha, q.body)))
  {
    hide Preimage, ContentBytes, Accepted, RowContentThen, CommitmentThen, RowContentsThen, Rows, RowsThen, FiatThen, Flat,
      RowContents, RowContentOf, Serialize;
    var h := PayloadHasher(sha, intent.Kind());
    ghost var c := ContentOf(sha, q.body);
    ghost var before := h.fed;
    assert before + ContentBytes(c) == Preimage(q.body.Kind(), c);
    AcceptedRows(q);
    match intent.action {
      case TransferAction(row, commitment, _) =>
        h.UpdateTransferRow(row);
        h.UpdateCommitment(commitment);
        assert h.fed == before + ContentBytes(c) by { TransferParts(before, c); }
      case BatchAction(encodedRows, rowCount) =>
        FeedBatch(h, encodedRows, rowCount, q);
      case GovernanceAction(_, _, _, _, _, _, _, _, _) =>
        assert |q.body.proposers| <= 16 && |q.body.approvers| <= 16 by { AcceptedKeys(q); }
        FeedGovernance(h, intent.action, c);
      case EscrowReturnAction(escrowId, _, encodedRows, rowCount, commitment) =>
        FeedReturn(h, escrowId, encodedRows, rowCount, commitment, q);
      case DirectAction(body) =>
        FeedDirect(h, body);
    }
    digest := h.Finalize();
  }

  method FeedDirect(h: Hasher, body: Body)
    requires ActionOf(body) == DirectAction(body)
    modifies h
    ensures h.fed == old(h.fed) + ContentBytes(ContentOf(h.sha, body))
  {
    hide ContentBytes, ContentOf;
    match body {
      case PolicyBody(_, _) => FeedPolicy(h, body);
      case AssetPolicyBody(_, _, _, _, _, _) => FeedAssetPolicy(h, body);
      case EscrowReleaseBody(_, _, _, _, _, _) => FeedRelease(h, body);
      case AgentTradeBody(_, _, _, _, _, _, _, _, _, _) => FeedTrade(h, body);
      case AgentSessionBody(_, _, _, _, _, _, _, _) => FeedSession(h, body);
      case AgentRiskBody(_, _, _, _) => FeedRisk(h, body);
      case AgentSettlementBody(_, _, _, _, _, _, _, _) => FeedSettlement(h, body);
      case RecurringBody(_, _, _, _, _, _, _) => FeedRecurring(h, body);
    }
  }

  lemma TransferParts(before: seq<byte>, c: Content)
    requires c.TransferContent?
    ensures before + RowContentThen(c.row, []) + CommitmentThen(c.commitment, []) == before + ContentBytes(c)
  {
    hide RowContentThen, CommitmentThen;
    RowContentSplit(c.row, CommitmentThen(c.commitment, []));
    Assoc(before, RowContentThen(c.row, []), CommitmentThen(c.commitment, []));
  }

  lemma BatchParts(before: seq<byte>, c: Content)
    requires c.BatchContent?
    ensures before + LE(|c.rows|, 4) + RowContentsThen(c.rows, []) == before + ContentBytes(c)
  {
    hide LE, RowContentsThen;
    Assoc(before, LE(|c.rows|, 4), RowContentsThen(c.rows, []));
  }

  lemma AcceptedRows(q: Request)
    requires Accepted(q)
    ensures |RowsOf(q.body)| <= 16 && (q.body.BatchBody? || q.body.EscrowReturnBody? ==> RowsOf(q.body) != [])
  {
    hide Visible, ValidateTexts, ValidateRow;
  }

  lemma AcceptedKeys(q: Request)
    requires Accepted(q) && q.body.GovernanceBody?
    ensures |q.body.proposers| <= 16 && |q.body.approvers| <= 16
  {
    hide Visible, ValidateTexts, ValidateRow;
  }

  lemma RowsExactFor(q: Request)
    requires Accepted(q)
    ensures Rows(RowsThen(RowsOf(q.body), []), |RowsOf(q.body)|) == RowsOf(q.body)
  {
    hide Rows, RowsThen, ValidateRequest, ValidateRow;
    CodecLaws.RowsExact(RowsOf(q.body));
  }

  // ----- The executors' side -----

  method CommittedTransferHash(sha: Sha, recipient: seq<byte>, asset: seq<byte>, rawAmount: u128, commitment: Bytes32)
    returns (digest: Bytes32)
    ensures digest == sha(Preimage(Send, TransferContent(RowContent(recipient, asset, rawAmount), commitment)))
  {
    hide Preimage, ContentBytes;
    ghost var c := TransferContent(RowContent(recipient, asset, rawAmount), commitment);
    var h := PayloadHasher(sha, Send);
    ghost var before := h.fed;
    assert before + ContentBytes(c) == Preimage(Send, c);
    h.UpdateRow(RowContent(recipient, asset, rawAmount));
    h.UpdateCommitment(commitment);
    TransferParts(before, c);
    digest := h.Finalize();
  }

  method CommittedReleaseHash(sha: Sha, escrowId: seq<byte>, milestoneId: seq<byte>, recipient: seq<byte>,
                              asset: seq<byte>, rawAmount: u128, commitment: Bytes32) returns (digest: Bytes32)
    ensures digest == sha(Preimage(ReleaseMilestone, ReleaseContent(escrowId, milestoneId,
                                   RowContent(recipient, asset, rawAmount), commitment)))
  {
    hide LE, Prefixed, ContentBytes, RowContentThen, CommitmentThen, Preimage;
    ghost var c := ReleaseContent(escrowId, milestoneId, RowContent(recipient, asset, rawAmount), commitment);
    var h := PayloadHasher(sha, ReleaseMilestone);
    ghost var before := h.fed;
    assert before + ContentBytes(c) == Preimage(ReleaseMilestone, c);
    h.UpdateBytes(escrowId);
    h.UpdateBytes(milestoneId);
    h.UpdateRow(RowContent(recipient, asset, rawAmount));
    h.UpdateCommitment(commitment);
    CommittedReleaseParts(before, c);
    digest := h.Finalize();
  }

  lemma CommittedReleaseParts(before: seq<byte>, c: Content)
    requires c.ReleaseContent?
    ensures before + Prefixed(c.escrow, []) + Prefixed(c.milestone, [])
            + RowContentThen(c.row, []) + CommitmentThen(c.commitment, [])
            == before + ContentBytes(c)
  {
    hide LE, Prefixed, RowContentThen, CommitmentThen;
    var row, last := RowContentThen(c.row, []), CommitmentThen(c.commitment, []);
    RowContentSplit(c.row, last);
    PrefixedSplit(c.milestone, row + last);
    PrefixedSplit(c.escrow, Prefixed(c.milestone, []) + (row + last));
    Regroup(before, Prefixed(c.escrow, []), Prefixed(c.milestone, []), row, last);
  }

  method CommittedReturnHash(sha: Sha, escrowId: seq<byte>, rows: seq<RowContent>, commitment: Bytes32)
    returns (digest: Bytes32)
    ensures digest == sha(Preimage(ReturnEscrowFunds, ReturnContent(escrowId, rows, commitment)))
  {
    hide Preimage, ContentBytes;
    ghost var c := ReturnContent(escrowId, rows, commitment);
    var h := PayloadHasher(sha, ReturnEscrowFunds);
    ghost var before := h.fed;
    assert before + ContentBytes(c) == Preimage(ReturnEscrowFunds, c);
    h.UpdateBytes(escrowId);
    h.Update(LE(|rows| % 0x1_0000_0000, 4));
    h.UpdateRows(rows);
    h.UpdateCommitment(commitment);
    ReturnParts(before, c);
    digest := h.Finalize();
  }

  method CommittedRecurringHash(sha: Sha, scheduleIdHash: Bytes32, recipient: seq<byte>, asset: seq<byte>,
                                rawAmount: u128, commitment: Bytes32, interval: u32, first: i64, count: u32,
                                status: byte) returns (digest: Bytes32)
    ensures digest == sha(Preimage(RecurringSchedule, RecurringContent(scheduleIdHash,
                        RowContent(recipient, asset, rawAmount), commitment, interval, first, count, status)))
  {
    hide Preimage, ContentBytes;
    var row := RowContent(recipient, asset, rawAmount);
    var c := RecurringContent(scheduleIdHash, row, commitment, interval, first, count, status);
    var h := PayloadHasher(sha, RecurringSchedule);
    ghost var before := h.fed;
    assert before + ContentBytes(c) == Preimage(RecurringSchedule, c);
    h.UpdateBytes(scheduleIdHash);
    h.UpdateRow(row);
    FeedSchedule(h, c);
    ScheduleParts(before, c);
    digest := h.Finalize();
  }

  /** Both sides at once: what the signer approved and what an executor recomputes from the committed
      identity bytes, amounts and terms are the same hash. */
  method SignerAndExecutor(sha: Sha, intent: Intent, ghost q: Request) returns (signed: Bytes32, executed: Bytes32)
    requires Accepted(q) && intent == IntentOf(q)
    requires q.body.SendBody? || q.body.EscrowReleaseBody? || q.body.EscrowReturnBody? || q.body.RecurringBody?
    ensures signed == executed == sha(Preimage(q.body.Kind(), ContentOf(sha, q.body)))
  {
    hide Preimage, Accepted, Rows, RowsThen, FiatThen, RowContents, Serialize, Committed, ContentBytes;
    signed := PayloadHash(sha, intent, q);
    match intent.action {
      case TransferAction(row, commitment, _) =>
        var r := RowContentOf(sha, row);
        executed := CommittedTransferHash(sha, r.recipient, r.asset, r.rawAmount, commitment);
      case EscrowReturnAction(escrowId, _, encodedRows, rowCount, commitment) =>
        assert Rows(encodedRows, rowCount) == RowsOf(q.body) by { AcceptedRows(q); RowsExactFor(q); }
        executed := CommittedReturnHash(sha, sha(escrowId), RowContents(sha, Rows(encodedRows, rowCount)), commitment);
      case DirectAction(body) =>
        if body.EscrowReleaseBody? {
          var r := RowContentOf(sha, body.payment);
          executed := CommittedReleaseHash(sha, sha(body.escrowId), sha(body.milestoneId), r.recipient, r.asset,
                                           r.rawAmount, body.executionCommitment);
        } else {
          var r := RowContentOf(sha, body.payment);
          executed := CommittedRecurringHash(sha, sha(body.scheduleId), r.recipient, r.asset, r.rawAmount,
            body.executionCommitment, body.intervalSeconds, body.firstExecutionAt, body.paymentCount, body.status);
        }
    }
  }

  // ----- Executor evidence -----

  method FeedParts(h: Hasher, parts: seq<seq<byte>>)
    modifies h
    ensures h.fed == old(h.fed) + PartsThen(parts)
  {
    hide Prefixed;
    ghost var before := h.fed;
    for i := 0 to |parts|
      invariant h.fed == before + PartsThen(parts[..i])
    {
      assert parts[..i + 1] == parts[..i] + [parts[i]];
      PartsSnoc(parts[..i], parts[i]);
      h.UpdateBytes(parts[i]);
    }
    assert parts[..|parts|] == parts;
  }

  lemma {:induction false} PartsSnoc(parts: seq<seq<byte>>, p: seq<byte>)
    ensures PartsThen(parts + [p]) == PartsThen(parts) + Prefixed(p, [])
  {
    hide LE;
    if parts == [] {
      assert ([] + [p])[1..] == [];
    } else {
      PartsSnoc(parts[1..], p);
      assert (parts + [p])[1..] == parts[1..] + [p];
    }
  }

  method ExecutionCommitment(sha: Sha, parts: seq<seq<byte>>) returns (digest: Bytes32)
    ensures digest == sha(EvidenceBytes(parts))
  {
    hide LE, PartsThen, Prefixed;
    var h := new Hasher(sha);
    h.UpdateBytes(EVIDENCE_DOMAIN);
    h.Update(LE(|parts| % 0x1_0000_0000, 4));
    FeedParts(h, parts);
    EvidenceParts(parts);
    digest := h.Finalize();
  }

  /** Fed without building the list, it is still the commitment to the equivalent list of parts. */
  method SplEscrowReturnCommitment(sha: Sha, mint: seq<byte>, sourceToken: seq<byte>, destinations: seq<seq<byte>>)
    returns (digest: Bytes32)
    ensures digest == sha(EvidenceBytes([Ascii("spl_escrow_return"), mint, sourceToken] + destinations))
  {
    hide LE, PartsThen, Prefixed, Ascii, EvidenceBytes;
    var h := new Hasher(sha);
    var count := LE((3 + |destinations| % 0x1_0000_0000) % 0x1_0000_0000, 4);
    WrappedCount(|destinations|);
    h.UpdateBytes(EVIDENCE_DOMAIN);
    h.Update(count);
    h.UpdateBytes(Ascii("spl_escrow_return"));
    h.UpdateBytes(mint);
    h.UpdateBytes(sourceToken);
    FeedParts(h, destinations);
    SplParts(mint, sourceToken, destinations, count);
    digest := h.Finalize();
  }

  lemma WrappedCount(n: nat)
    ensures (3 + n % 0x1_0000_0000) % 0x1_0000_0000 == (3 + n) % 0x1_0000_0000
  {
  }

  lemma EvidenceParts(parts: seq<seq<byte>>)
    ensures [] + Prefixed(EVIDENCE_DOMAIN, []) + LE(|parts| % 0x1_0000_0000, 4) + PartsThen(parts) == EvidenceBytes(parts)
  {
    hide LE, PartsThen, Prefixed, EVIDENCE_DOMAIN;
    var d, n := Prefixed(EVIDENCE_DOMAIN, []), LE(|parts| % 0x1_0000_0000, 4);
    Nothing(d);
    PrefixedSplit(EVIDENCE_DOMAIN, n + PartsThen(parts));
    Assoc(d, n, PartsThen(parts));
  }

  lemma ThreeParts(a: seq<byte>, b: seq<byte>, c: seq<byte>, rest: seq<seq<byte>>)
    ensures PartsThen([a, b, c] + rest) == Prefixed(a, []) + Prefixed(b, []) + Prefixed(c, []) + PartsThen(rest)
  {
    hide PartsThen, Prefixed;
    assert [a, b, c] + rest == [a] + ([b] + ([c] + rest));
    var last := PartsThen(rest);
    PartsCons(a, [b] + ([c] + rest));
    PartsCons(b, [c] + rest);
    PartsCons(c, rest);
    PrefixedSplit(c, last);
    PrefixedSplit(b, Prefixed(c, last));
    PrefixedSplit(a, Prefixed(b, Prefixed(c, last)));
    Assoc(Prefixed(a, []), Prefixed(b, []), Prefixed(c, []) + last);
    Assoc(Prefixed(a, []) + Prefixed(b, []), Prefixed(c, []), last);
  }

  lemma FiveParts(h: seq<byte>, a: seq<byte>, b: seq<byte>, c: seq<byte>, d: seq<byte>)
    ensures h + (a + b + c + d) == h + a + b + c + d
  {
    Assoc(h, a + b + c, d);
    Assoc(h, a + b, c);
    Assoc(h, a, b);
  }

  lemma SplParts(mint: seq<byte>, source: seq<byte>, destinations: seq<seq<byte>>, count: seq<byte>)
    requires count == LE(|[Ascii("spl_escrow_return"), mint, source] + destinations| % 0x1_0000_0000, 4)
    ensures [] + Prefixed(EVIDENCE_DOMAIN, []) + count
            + Prefixed(Ascii("spl_escrow_return"), []) + Prefixed(mint, []) + Prefixed(source, [])
            + PartsThen(destinations)
            == EvidenceBytes([Ascii("spl_escrow_return"), mint, source] + destinations)
  {
    hide LE, PartsThen, Prefixed, Ascii, EvidenceBytes;
    var tag := Ascii("spl_escrow_return");
    EvidenceParts([tag, mint, source] + destinations);
    ThreeParts(tag, mint, source, destinations);
    FiveParts([] + Prefixed(EVIDENCE_DOMAIN, []) + count, Prefixed(tag, []), Prefixed(mint, []),
              Prefixed(source, []), PartsThen(destinations));
  }

  lemma PartsCons(p: seq<byte>, parts: seq<seq<byte>>)
    ensures PartsThen([p] + parts) == Prefixed(p, PartsThen(parts))
  {
    assert ([p] + parts)[1..] == parts;
  }

  /** `envelope_hash_fields`. */
  method EnvelopeHash(sha: Sha, f: EnvelopeFields) returns (r: Result<Bytes32, Error>)
    ensures match r
            case Ok(digest) => digest == sha(EnvelopeBytes(f)) && ValidateVisibleAscii(f.walletName, 64, false).Ok?
                               && ValidateApproval(f.approvalRequired).Ok?
            case Err(e) => ValidateVisibleAscii(f.walletName, 64, false) == Err(e)
                           || (ValidateVisibleAscii(f.walletName, 64, false).Ok? && ValidateApproval(f.approvalRequired) == Err(e))
  {
    hide LE, Prefixed, ReplayBytes, EnvelopeBytes, ActionKind.Code, Network.Code, Ascii, Visible;
    var _ :- ValidateVisibleAscii(f.walletName, 64, false);
    var _ :- ValidateApproval(f.approvalRequired);
    var h := new Hasher(sha);
    h.UpdateBytes(ENVELOPE_DOMAIN);
    h.Update([INTENT_VERSION]);
    h.Update([f.kind.Code()]);
    h.Update([f.network.Code()]);
    h.Update(LE(f.proposalIndex, 8));
    h.UpdateBytes(f.walletName);
    FeedReplay(h, f);
    EnvelopeParts(f);
    var digest := h.Finalize();
    return Ok(digest);
  }

  lemma EnvelopeParts(f: EnvelopeFields)
    ensures [] + Prefixed(ENVELOPE_DOMAIN, []) + [INTENT_VERSION] + [f.kind.Code()] + [f.network.Code()]
            + LE(f.proposalIndex, 8) + Prefixed(f.walletName, []) + ReplayBytes(f) == EnvelopeBytes(f)
  {
    hide LE, ReplayBytes, ActionKind.Code, Network.Code, Prefixed, ENVELOPE_DOMAIN;
    var d, name := Prefixed(ENVELOPE_DOMAIN, []), Prefixed(f.walletName, []);
    var rest := LE(f.proposalIndex, 8) + (name + ReplayBytes(f));
    Nothing(d);
    PrefixedSplit(f.walletName, ReplayBytes(f));
    PrefixedSplit(ENVELOPE_DOMAIN, [INTENT_VERSION] + ([f.kind.Code()] + ([f.network.Code()] + rest)));
    Regroup(d, [INTENT_VERSION], [f.kind.Code()], [f.network.Code()], rest);
    var b4 := d + [INTENT_VERSION] + [f.kind.Code()] + [f.network.Code()];
    Assoc(b4, LE(f.proposalIndex, 8), name + ReplayBytes(f));
    Assoc(b4 + LE(f.proposalIndex, 8), name, ReplayBytes(f));
  }

  method FeedReplay(h: Hasher, f: EnvelopeFields)
    modifies h
    ensures h.fed == old(h.fed) + ReplayBytes(f)
  {
    hide LE, Prefixed, ReplayBytes;
    ReplayParts(h.fed, f);
    h.UpdateBytes(f.walletId);
    h.UpdateBytes(f.actor);
    h.UpdateBytes(f.actionId);
    h.UpdateBytes(f.nonce);
    h.Update(LE(Twos(f.expiresAt), 8));
    h.Update([f.approvalRequired]);
    h.Update(f.policyCommitment);
    h.Update(f.payloadHash);
    h.Update(f.clearTextHash);
  }

  lemma ReplayParts(b: seq<byte>, f: EnvelopeFields)
    ensures b + Prefixed(f.walletId, []) + Prefixed(f.actor, []) + Prefixed(f.actionId, []) + Prefixed(f.nonce, [])
            + LE(Twos(f.expiresAt), 8) + [f.approvalRequired] + f.policyCommitment + f.payloadHash + f.clearTextHash
            == b + ReplayBytes(f)
  {
    hide LE, Prefixed;
    var hashes := f.policyCommitment + (f.payloadHash + f.clearTextHash);
    var rest := LE(Twos(f.expiresAt), 8) + ([f.approvalRequired] + hashes);
    PrefixedSplit(f.nonce, rest);
    var n := Prefixed(f.nonce, []) + rest;
    PrefixedSplit(f.actionId, n);
    PrefixedSplit(f.actor, Prefixed(f.actionId, []) + n);
    PrefixedSplit(f.walletId, Prefixed(f.actor, []) + (Prefixed(f.actionId, []) + n));
    var b3 := b + Prefixed(f.walletId, []) + Prefixed(f.actor, []) + Prefixed(f.actionId, []);
    Regroup(b, Prefixed(f.walletId, []), Prefixed(f.actor, []), Prefixed(f.actionId, []), n);
    var b6 := b3 + Prefixed(f.nonce, []) + LE(Twos(f.expiresAt), 8) + [f.approvalRequired];
    Regroup(b3, Prefixed(f.nonce, []), LE(Twos(f.expiresAt), 8), [f.approvalRequired], hashes);
    Assoc(b6, f.policyCommitment, f.payloadHash + f.clearTextHash);
    Assoc(b6 + f.policyCommitment, f.payloadHash, f.clearTextHash);
  }
}

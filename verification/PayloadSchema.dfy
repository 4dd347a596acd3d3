/** The bytes that are hashed, as tables of fields. What signers and executors feed is proved to spell
    them byte for byte. */
module PayloadSchema {
  import opened Base
  import opened Model
  import opened Wire
  import opened Payload
  import opened Schema

  function IdentityPart(sha: Sha, encoding: IdentityEncoding, value: seq<byte>): Field {
    Part(match encoding case Sha256Text => sha(value) case Text => value case SolanaPubkey => value)
  }

  function RowParts(sha: Sha, r: TransferRow): seq<Field> {
    [IdentityPart(sha, r.recipientEncoding, r.recipient), IdentityPart(sha, r.assetEncoding, r.asset), Number(r.rawAmount, 16)]
  }

  function RowsParts(sha: Sha, rows: seq<TransferRow>): seq<Field> {
    if rows == [] then [] else RowParts(sha, rows[0]) + RowsParts(sha, rows[1..])
  }

  /** The zero commitment leaves no trace. */
  function CommitmentParts(c: Bytes32): seq<Field> {
    if forall i :: 0 <= i < 32 ==> c[i] == 0 then [] else [Part(Ascii("execution_template")), Raw(c)]
  }

  function PayloadBody(sha: Sha, body: Body): seq<Field> {
    match body
    case SendBody(row, commitment, _) => RowParts(sha, row) + CommitmentParts(commitment)
    case BatchBody(rows) => [Number(|rows|, 4)] + RowsParts(sha, rows)
    case GovernanceBody(_, target, approval, cancellation, timelock, proposers, approvers) =>
      [Part(Ascii("intent_governance")), Byte(target), Byte(approval), Byte(cancellation), Number(timelock, 4),
       Number(|proposers|, 4)] + KeyFields(proposers) + [Number(|approvers|, 4)] + KeyFields(approvers)
    case PolicyBody(chainKind, newPolicy) => [Part(Ascii("wallet_policy")), Byte(chainKind), Raw(newPolicy)]
    case AssetPolicyBody(chainKind, scopeKind, decimals, mint, displayAsset, newPolicy) =>
      [Part(Ascii("asset_policy")), Byte(chainKind), Byte(scopeKind), Byte(decimals), Raw(mint), Part(displayAsset), Raw(newPolicy)]
    case EscrowReleaseBody(escrowId, _, milestoneId, _, payment, commitment) =>
      [Part(sha(escrowId)), Part(sha(milestoneId))] + RowParts(sha, payment) + CommitmentParts(commitment)
    case EscrowReturnBody(escrowId, _, rows, commitment) =>
      [Part(sha(escrowId)), Number(|rows|, 4)] + RowsParts(sha, rows) + CommitmentParts(commitment)
    case AgentTradeBody(agentId, venue, market, side, assetId, notional, leverage, sessionId, route, risk) =>
      [Part(sha(agentId)), Part(sha(venue)), Part(sha(market)), Part(sha(side)), Part(sha(assetId)), Number(notional, 16),
       Number(leverage, 4), Part(sha(sessionId)), Part(sha(route)), Part(risk)]
    case AgentSessionBody(sessionId, agentId, venue, market, notional, leverage, expiry, status) =>
      [Part(Ascii("agent_session")), Raw(sha(sessionId)), Raw(sha(agentId)), Raw(sha(venue)), Raw(sha(market)),
       Number(notional, 16), Number(leverage, 4), Signed(expiry), Byte(status)]
    case AgentRiskBody(sessionId, oracle, maxLoss, status) =>
      [Part(Ascii("agent_risk_policy")), Raw(sha(sessionId)), Raw(oracle), Number(maxLoss, 16), Byte(status)]
    case AgentSettlementBody(sessionId, executionId, artifact, oracle, closed, outcome, pnl, sequence) =>
      [Part(Ascii("agent_trade_settlement")), Raw(sha(sessionId)), Raw(sha(executionId)), Raw(artifact), Raw(oracle),
       Number(closed, 16), Byte(outcome), Number(pnl, 16), Number(sequence, 8)]
    case RecurringBody(scheduleId, payment, commitment, interval, first, count, status) =>
      [Part(sha(scheduleId))] + RowParts(sha, payment) + CommitmentParts(commitment)
      + [Number(interval, 4), Signed(first), Number(count, 4), Byte(status)]
  }

  function PayloadFields(sha: Sha, body: Body): seq<Field> {
    [Part(Ascii("clearsig:policy-engine:v2:payload")), Byte(body.Kind().Code())] + PayloadBody(sha, body)
  }

  function EnvelopeTable(f: EnvelopeFields): seq<Field> {
    [Part(Ascii("clearsig:policy-engine:v4")), Byte(4), Byte(f.kind.Code()), Byte(f.network.Code()), Number(f.proposalIndex, 8),
     Part(f.walletName), Part(f.walletId), Part(f.actor), Part(f.actionId), Part(f.nonce), Signed(f.expiresAt),
     Byte(f.approvalRequired), Raw(f.policyCommitment), Raw(f.payloadHash), Raw(f.clearTextHash)]
  }

  function EvidenceTable(parts: seq<seq<byte>>): seq<Field> {
    [Part(Ascii("clearsig:execution-evidence:v1")), Number(|parts|, 4)] + PartFields(parts)
  }

  function PartFields(parts: seq<seq<byte>>): seq<Field> {
    if parts == [] then [] else [Part(parts[0])] + PartFields(parts[1..])
  }

  lemma RowPartsSpelled(sha: Sha, r: TransferRow, t: seq<byte>)
    requires RowOk(RowContentOf(sha, r))
    ensures SpellFrom(RowParts(sha, r), 0, t) == RowContentThen(RowContentOf(sha, r), t)
  {
    hide LE, Spelled, SpellFrom, Prefixed;
    FieldsThen();
    Peel(RowParts(sha, r), 0, t);
  }

  lemma {:induction false} RowsPartsSpelled(sha: Sha, rows: seq<TransferRow>, t: seq<byte>)
    requires forall i :: 0 <= i < |rows| ==> RowOk(RowContentOf(sha, rows[i]))
    ensures SpellFrom(RowsParts(sha, rows), 0, t) == RowContentsThen(RowContents(sha, rows), t)
  {
    hide RowParts, RowContentThen, RowContentOf, RowOk;
    if rows != [] {
      SpellPlus(RowParts(sha, rows[0]), RowsParts(sha, rows[1..]), 0, t);
      RowsPartsSpelled(sha, rows[1..], t);
      RowPartsSpelled(sha, rows[0], RowContentsThen(RowContents(sha, rows[1..]), t));
      assert RowContents(sha, rows)[1..] == RowContents(sha, rows[1..]);
    }
  }

  lemma ZeroIsZero(c: Bytes32)
    ensures IsZero(c) <==> forall i :: 0 <= i < 32 ==> c[i] == 0
  {
  }

  lemma CommitmentSpelled(c: Bytes32, t: seq<byte>)
    ensures SpellFrom(CommitmentParts(c), 0, t) == CommitmentThen(c, t)
  {
    hide LE, Spelled, SpellFrom, Prefixed, IsZero, Ascii;
    FieldsThen();
    ZeroIsZero(c);
    Peel(CommitmentParts(c), 0, t);
  }

  /** What every accepted body meets: lengths that 32 bits can say. */
  ghost predicate Hashable(sha: Sha, body: Body) { Fits(body.Kind(), ContentOf(sha, body)) }

  lemma PaymentPayload(sha: Sha, body: Body)
    requires (body.SendBody? || body.EscrowReleaseBody?) && Hashable(sha, body)
    ensures Spell(PayloadBody(sha, body)) == ContentBytes(ContentOf(sha, body))
  {
    hide LE, Spelled, SpellFrom, Prefixed, RowParts, CommitmentParts, RowContentThen, CommitmentThen, RowOk, RowContentOf;
    FieldsThen();
    match body {
      case SendBody(row, commitment, _) =>
        SpellPlus(RowParts(sha, row), CommitmentParts(commitment), 0, []);
        CommitmentSpelled(commitment, []);
        RowPartsSpelled(sha, row, CommitmentThen(commitment, []));
      case EscrowReleaseBody(escrowId, _, milestoneId, _, payment, commitment) =>
        var ids := [Part(sha(escrowId)), Part(sha(milestoneId))];
        SpellPlus(ids + RowParts(sha, payment), CommitmentParts(commitment), 0, []);
        CommitmentSpelled(commitment, []);
        var t := CommitmentThen(commitment, []);
        SpellPlus(ids, RowParts(sha, payment), 0, t);
        RowPartsSpelled(sha, payment, t);
        Peel(ids, 0, RowContentThen(RowContentOf(sha, payment), t));
    }
  }

  lemma {:induction false} RowsHashable(sha: Sha, rows: seq<TransferRow>)
    requires RowsOk(RowContents(sha, rows))
    ensures forall i :: 0 <= i < |rows| ==> RowOk(RowContentOf(sha, rows[i]))
  {
    hide RowOk, RowContentOf;
    if rows != [] {
      var cs := RowContents(sha, rows);
      assert cs[0] == RowContentOf(sha, rows[0]);
      assert forall i :: 0 <= i < |rows| - 1 ==> cs[1..][i] == cs[i + 1];
      RowsHashable(sha, rows[1..]);
      assert forall i :: 0 < i < |rows| ==> rows[i] == rows[1..][i - 1];
    }
  }

  lemma RowsPayload(sha: Sha, body: Body)
    requires (body.BatchBody? || body.EscrowReturnBody?) && Hashable(sha, body)
    ensures Spell(PayloadBody(sha, body)) == ContentBytes(ContentOf(sha, body))
  {
    hide LE, Spelled, SpellFrom, Prefixed, RowsParts, CommitmentParts, RowContentsThen, CommitmentThen, RowOk, RowContents;
    FieldsThen();
    RowsHashable(sha, body.rows);
    match body {
      case BatchBody(rows) =>
        SpellPlus([Number(|rows|, 4)], RowsParts(sha, rows), 0, []);
        RowsPartsSpelled(sha, rows, []);
        Peel([Number(|rows|, 4)], 0, RowContentsThen(RowContents(sha, rows), []));
      case EscrowReturnBody(escrowId, _, rows, commitment) =>
        var head := [Part(sha(escrowId)), Number(|rows|, 4)];
        SpellPlus(head + RowsParts(sha, rows), CommitmentParts(commitment), 0, []);
        CommitmentSpelled(commitment, []);
        var t := CommitmentThen(commitment, []);
        SpellPlus(head, RowsParts(sha, rows), 0, t);
        RowsPartsSpelled(sha, rows, t);
        Peel(head, 0, RowContentsThen(RowContents(sha, rows), t));
    }
  }

  lemma GovernancePayload(sha: Sha, body: Body)
    requires body.GovernanceBody?
    ensures Spell(PayloadBody(sha, body)) == ContentBytes(ContentOf(sha, body))
  {
    hide LE, Spelled, SpellFrom, Prefixed, KeyFields, Flat, Ascii;
    FieldsThen();
    Nothing(Flat(body.approvers));
    var head := [Part(Ascii("intent_governance")), Byte(body.targetIntentIndex), Byte(body.approvalThreshold),
                 Byte(body.cancellationThreshold), Number(body.timelockSeconds, 4), Number(|body.proposers|, 4)];
    var count := [Number(|body.approvers|, 4)];
    SpellPlus(head + KeyFields(body.proposers) + count, KeyFields(body.approvers), 0, []);
    KeysSpelled(body.approvers, []);
    SpellPlus(head + KeyFields(body.proposers), count, 0, Flat(body.approvers));
    Peel(count, 0, Flat(body.approvers));
    var t := LE(|body.approvers|, 4) + Flat(body.approvers);
    SpellPlus(head, KeyFields(body.proposers), 0, t);
    KeysSpelled(body.proposers, t);
    Peel(head, 0, Flat(body.proposers) + t);
    Peel(head, 4, Flat(body.proposers) + t);
  }

  lemma RecurringPayload(sha: Sha, body: Body)
    requires body.RecurringBody? && Hashable(sha, body)
    ensures Spell(PayloadBody(sha, body)) == ContentBytes(ContentOf(sha, body))
  {
    hide LE, Spelled, SpellFrom, Prefixed, RowParts, CommitmentParts, RowContentThen, CommitmentThen, RowOk, RowContentOf;
    FieldsThen();
    var RecurringBody(scheduleId, payment, commitment, interval, first, count, status) := body;
    var terms := [Number(interval, 4), Signed(first), Number(count, 4), Byte(status)];
    var id := [Part(sha(scheduleId))];
    SpellPlus(id + RowParts(sha, payment) + CommitmentParts(commitment), terms, 0, []);
    Peel(terms, 0, []);
    Nothing([status]);
    var t2 := SpellFrom(terms, 0, []);
    SpellPlus(id + RowParts(sha, payment), CommitmentParts(commitment), 0, t2);
    CommitmentSpelled(commitment, t2);
    var t1 := CommitmentThen(commitment, t2);
    SpellPlus(id, RowParts(sha, payment), 0, t1);
    RowPartsSpelled(sha, payment, t1);
    Peel(id, 0, RowContentThen(RowContentOf(sha, payment), t1));
  }

  lemma PolicyPayload(sha: Sha, body: Body)
    requires (body.PolicyBody? || body.AgentRiskBody?) && Hashable(sha, body)
    ensures Spell(PayloadBody(sha, body)) == ContentBytes(ContentOf(sha, body))
  {
    hide LE, Spelled, SpellFrom, Prefixed, Ascii;
    FieldsThen();
    var fs := PayloadBody(sha, body);
    Peel(fs, 0, []);
    if body.PolicyBody? {
      Nothing(body.newPolicyCommitment);
    } else {
      Peel(fs, 4, []);
      Nothing([body.status]);
    }
  }

  lemma AssetPolicyPayload(sha: Sha, body: Body)
    requires body.AssetPolicyBody? && Hashable(sha, body)
    ensures Spell(PayloadBody(sha, body)) == ContentBytes(ContentOf(sha, body))
  {
    hide LE, Spelled, SpellFrom, Prefixed, Ascii;
    FieldsThen();
    var fs := PayloadBody(sha, body);
    Peel(fs, 0, []);
    Peel(fs, 4, []);
    Nothing(body.newPolicyCommitment);
    ThreeBytes(body.chainKind, body.scopeKind, body.decimals, body.mint + Prefixed(body.displayAsset, body.newPolicyCommitment));
  }

  lemma ThreeBytes(x: byte, y: byte, z: byte, t: seq<byte>)
    ensures [x] + ([y] + ([z] + t)) == [x, y, z] + t
  {
  }

  lemma TradePayload(sha: Sha, body: Body)
    requires body.AgentTradeBody?
    ensures Spell(PayloadBody(sha, body)) == ContentBytes(ContentOf(sha, body))
  {
    hide LE, Spelled, SpellFrom, Prefixed;
    FieldsThen();
    var fs := PayloadBody(sha, body);
    Peel(fs, 0, []);
    Peel(fs, 4, []);
    Peel(fs, 8, []);
  }

  lemma SessionPayload(sha: Sha, body: Body)
    requires body.AgentSessionBody?
    ensures Spell(PayloadBody(sha, body)) == ContentBytes(ContentOf(sha, body))
  {
    hide LE, Spelled, SpellFrom, Prefixed, Ascii;
    FieldsThen();
    var fs := PayloadBody(sha, body);
    Peel(fs, 0, []);
    Peel(fs, 4, []);
    Peel(fs, 8, []);
    Nothing([body.status]);
  }

  lemma SettlementPayload(sha: Sha, body: Body)
    requires body.AgentSettlementBody?
    ensures Spell(PayloadBody(sha, body)) == ContentBytes(ContentOf(sha, body))
  {
    hide LE, Spelled, SpellFrom, Prefixed, Ascii;
    FieldsThen();
    var fs := PayloadBody(sha, body);
    Peel(fs, 0, []);
    Peel(fs, 4, []);
    Peel(fs, 8, []);
    Nothing(LE(body.settlementSequence, 8));
  }

  lemma BodyPayload(sha: Sha, body: Body)
    requires Hashable(sha, body)
    ensures Spell(PayloadBody(sha, body)) == ContentBytes(ContentOf(sha, body))
  {
    hide PayloadBody, ContentOf, ContentBytes, Spell, Hashable;
    match body {
      case SendBody(_, _, _) => PaymentPayload(sha, body);
      case EscrowReleaseBody(_, _, _, _, _, _) => PaymentPayload(sha, body);
      case BatchBody(_) => RowsPayload(sha, body);
      case EscrowReturnBody(_, _, _, _) => RowsPayload(sha, body);
      case GovernanceBody(_, _, _, _, _, _, _) => GovernancePayload(sha, body);
      case RecurringBody(_, _, _, _, _, _, _) => RecurringPayload(sha, body);
      case AgentTradeBody(_, _, _, _, _, _, _, _, _, _) => TradePayload(sha, body);
      case AgentSessionBody(_, _, _, _, _, _, _, _) => SessionPayload(sha, body);
      case AgentSettlementBody(_, _, _, _, _, _, _, _) => SettlementPayload(sha, body);
      case AssetPolicyBody(_, _, _, _, _, _) => AssetPolicyPayload(sha, body);
      case _ => PolicyPayload(sha, body);
    }
  }

  /** What is hashed for an accepted request is the spelling of its payload table. */
  lemma PayloadAsTable(sha: Sha, q: Request)
    requires Accepted(q)
    ensures Preimage(q.body.Kind(), ContentOf(sha, q.body)) == Spell(PayloadFields(sha, q.body))
  {
    hide Accepted, ContentOf, ContentBytes, PayloadBody, Spelled, SpellFrom, Prefixed, Fits, Ascii, Body.Kind, ActionKind.Code;
    FieldsThen();
    AcceptedFits(sha, q);
    BodyPayload(sha, q.body);
    var head := [Part(Ascii("clearsig:policy-engine:v2:payload")), Byte(q.body.Kind().Code())];
    SpellPlus(head, PayloadBody(sha, q.body), 0, []);
    Peel(head, 0, Spell(PayloadBody(sha, q.body)));
  }

  lemma EnvelopeAsTable(f: EnvelopeFields)
    requires |f.walletName| < 0x1_0000_0000
    ensures EnvelopeBytes(f) == Spell(EnvelopeTable(f))
  {
    hide LE, Spelled, SpellFrom, Prefixed, Ascii, ActionKind.Code, Network.Code;
    FieldsThen();
    var fs := EnvelopeTable(f);
    Peel(fs, 0, []);
    Peel(fs, 4, []);
    Peel(fs, 8, []);
    Peel(fs, 12, []);
    Nothing(f.clearTextHash);
  }

  lemma {:induction false} PartsSpelled(parts: seq<seq<byte>>)
    requires forall i :: 0 <= i < |parts| ==> |parts[i]| < 0x1_0000_0000
    ensures SpellFrom(PartFields(parts), 0, []) == PartsThen(parts)
  {
    hide Spelled, Prefixed;
    if parts != [] {
      FieldsThen();
      SpellPlus([Part(parts[0])], PartFields(parts[1..]), 0, []);
      PartsSpelled(parts[1..]);
      Peel([Part(parts[0])], 0, PartsThen(parts[1..]));
    }
  }

  lemma EvidenceAsTable(parts: seq<seq<byte>>)
    requires |parts| < 0x1_0000_0000 && forall i :: 0 <= i < |parts| ==> |parts[i]| < 0x1_0000_0000
    ensures EvidenceBytes(parts) == Spell(EvidenceTable(parts))
  {
    hide LE, Spelled, SpellFrom, Prefixed, Ascii, PartFields, PartsThen;
    FieldsThen();
    var head := [Part(Ascii("clearsig:execution-evidence:v1")), Number(|parts|, 4)];
    SpellPlus(head, PartFields(parts), 0, []);
    PartsSpelled(parts);
    Peel(head, 0, PartsThen(parts));
  }
}

/** The parser and the layout are inverse to each other. */
module CodecLaws {
  import opened Base
  import opened Model
  import opened Wire

  // ----- Each reader returns what was laid out -----

  lemma TakeBack(v: seq<byte>, t: seq<byte>)
    ensures Take(v + t, |v|) == Ok((v, t))
  {
    assert (v + t)[..|v|] == v && (v + t)[|v|..] == t;
  }

  lemma WordBack(v: nat, n: nat, t: seq<byte>)
    requires v < Pow(256, n)
    ensures ReadWord(LE(v, n) + t, n) == Ok((v, t))
  {
    hide LE, FromLE;
    TakeBack(LE(v, n), t);
    LERoundTrip(v, n);
  }

  lemma TextBack(v: seq<byte>, max: nat, t: seq<byte>)
    requires |v| <= max && max < 0x1_0000
    ensures ReadBytes(Text16(v, t), max) == Ok((v, t))
  {
    hide LE, FromLE, ReadWord;
    WordSizes();
    WordBack(|v|, 2, v + t);
    TakeBack(v, t);
  }

  lemma U8Back()
    ensures forall v: byte, t: seq<byte> {:trigger ReadU8([v] + t)} :: ReadU8([v] + t) == Ok((v, t))
  {
    forall v: byte, t: seq<byte> ensures ReadU8([v] + t) == Ok((v, t)) { TakeBack([v], t); }
  }

  lemma U32Back()
    ensures forall v: u32, t: seq<byte> {:trigger ReadU32(LE(v, 4) + t)} :: ReadU32(LE(v, 4) + t) == Ok((v, t))
  {
    hide LE, ReadWord;
    WordSizes();
    forall v: u32, t: seq<byte> ensures ReadU32(LE(v, 4) + t) == Ok((v, t)) { WordBack(v, 4, t); }
  }

  lemma U64Back()
    ensures forall v: u64, t: seq<byte> {:trigger ReadU64(LE(v, 8) + t)} :: ReadU64(LE(v, 8) + t) == Ok((v, t))
  {
    hide LE, ReadWord;
    WordSizes();
    forall v: u64, t: seq<byte> ensures ReadU64(LE(v, 8) + t) == Ok((v, t)) { WordBack(v, 8, t); }
  }

  lemma I64Back()
    ensures forall v: i64, t: seq<byte> {:trigger ReadI64(LE(Twos(v), 8) + t)} ::
              ReadI64(LE(Twos(v), 8) + t) == Ok((v, t))
  {
    hide LE, ReadU64;
    forall v: i64, t: seq<byte> ensures ReadI64(LE(Twos(v), 8) + t) == Ok((v, t)) { U64Back(); }
  }

  lemma U128Back()
    ensures forall v: u128, t: seq<byte> {:trigger ReadU128(LE(v, 16) + t)} :: ReadU128(LE(v, 16) + t) == Ok((v, t))
  {
    hide LE, ReadWord;
    WordSizes();
    forall v: u128, t: seq<byte> ensures ReadU128(LE(v, 16) + t) == Ok((v, t)) { WordBack(v, 16, t); }
  }

  lemma ArrayBack()
    ensures forall v: Bytes32, t: seq<byte> {:trigger ReadArray32(v + t)} :: ReadArray32(v + t) == Ok((v, t))
  {
    forall v: Bytes32, t: seq<byte> ensures ReadArray32(v + t) == Ok((v, t)) { TakeBack(v, t); }
  }

  lemma BytesBack()
    ensures forall v: seq<byte>, max: nat, t: seq<byte> {:trigger ReadBytes(Text16(v, t), max)} ::
              |v| <= max && max < 0x1_0000 ==> ReadBytes(Text16(v, t), max) == Ok((v, t))
  {
    hide Text16, ReadBytes;
    forall v: seq<byte>, max: nat, t: seq<byte> | |v| <= max && max < 0x1_0000
      ensures ReadBytes(Text16(v, t), max) == Ok((v, t))
    {
      TextBack(v, max, t);
    }
  }

  lemma AsciiBack()
    ensures forall v: seq<byte>, max: nat, t: seq<byte> {:trigger ReadAscii(Text16(v, t), max)} ::
              max < 0x1_0000 && ValidateVisibleAscii(v, max, false).Ok?
              ==> ReadAscii(Text16(v, t), max) == Ok((v, t))
  {
    hide Text16, ReadBytes, Visible;
    forall v: seq<byte>, max: nat, t: seq<byte> | max < 0x1_0000 && ValidateVisibleAscii(v, max, false).Ok?
      ensures ReadAscii(Text16(v, t), max) == Ok((v, t))
    {
      TextBack(v, max, t);
    }
  }

  lemma RowBack(row: TransferRow, t: seq<byte>)
    requires ValidateRow(row).Ok?
    ensures ParseRow(RowThen(row, t)) == Ok((row, t))
  {
    hide LE, Text16, ReadBytes, ReadU8, ReadU128, Visible, IdentityEncoding.FromCode, IdentityEncoding.Code;
    U8Back(); U128Back(); BytesBack();
    var t1 := LE(row.rawAmount, 16) + ([row.decimals] + Text16(row.displayAsset, t));
    var t2 := [row.assetEncoding.Code()] + Text16(row.asset, t1);
    assert ReadBytes(Text16(row.recipient, t2), MAX_IDENTITY_BYTES) == Ok((row.recipient, t2));
    assert ReadBytes(Text16(row.asset, t1), MAX_ASSET_BYTES) == Ok((row.asset, t1));
  }

  lemma {:induction false} RowsBack(rows: seq<TransferRow>, t: seq<byte>)
    requires forall i :: 0 <= i < |rows| ==> ValidateRow(rows[i]).Ok?
    ensures ParseRows(RowsThen(rows, t), |rows|) == Ok((rows, t))
  {
    hide RowThen, ParseRow, ValidateRow;
    if rows != [] {
      RowBack(rows[0], RowsThen(rows[1..], t));
      RowsBack(rows[1..], t);
      assert [rows[0]] + rows[1..] == rows;
    }
  }

  lemma FiatBack(fiat: Option<FiatEstimate>, t: seq<byte>)
    requires ValidateOptionalFiat(fiat).Ok?
    ensures ParseFiat(FiatThen(fiat, t)) == Ok((fiat, t))
  {
    hide LE, Text16, ReadBytes, ReadU8, ReadI64, ReadAscii, Visible, FiatAmountText;
    U8Back(); I64Back(); AsciiBack();
  }

  lemma {:induction false} ChunksFlat(keys: seq<Bytes32>)
    ensures |Flat(keys)| % 32 == 0 && Chunks(Flat(keys)) == keys
  {
    if keys != [] {
      ChunksFlat(keys[1..]);
      assert Flat(keys)[..32] == keys[0] && Flat(keys)[32..] == Flat(keys[1..]);
      assert [keys[0]] + keys[1..] == keys;
    }
  }

  lemma KeysBack(keys: seq<Bytes32>, t: seq<byte>)
    ensures ParseKeys(Flat(keys) + t, |keys|) == Ok((keys, t))
  {
    hide Flat, Chunks;
    TakeBack(Flat(keys), t);
    ChunksFlat(keys);
  }

  // ----- Each shape parses back -----

  /** What an encoder checks about a body, rows and estimate included. */
  ghost predicate BodyOk(body: Body, network: Network) {
    && ValidateBody(body, network).Ok?
    && (body.SendBody? ==> ValidateOptionalFiat(body.fiat).Ok?)
    && forall i :: 0 <= i < |RowsOf(body)| ==> ValidateRow(RowsOf(body)[i]).Ok?
  }

  lemma SendBack(body: Body, network: Network, t: seq<byte>)
    requires body.SendBody? && BodyOk(body, network)
    ensures ParseSend(BodyThen(body, t), network) == Ok((body, t))
  {
    hide ParseRow, RowThen, ValidateRow, ReadArray32, ParseFiat, FiatThen, ValidateFiat;
    ArrayBack();
    RowBack(body.row, body.executionCommitment + FiatThen(body.fiat, t));
    FiatBack(body.fiat, t);
  }

  lemma BatchBack(body: Body, network: Network, t: seq<byte>)
    requires body.BatchBody? && BodyOk(body, network)
    ensures ParseBatch(BodyThen(body, t), network) == Ok((body, t))
  {
    hide ParseRows, RowsThen, ValidateRow, ValidateVisibleAscii, ReadU8;
    U8Back();
    assert body.rows == RowsOf(body);
    RowsBack(body.rows, t);
  }

  lemma GovernanceBack(body: Body, network: Network, t: seq<byte>)
    requires body.GovernanceBody? && BodyOk(body, network)
    ensures ParseGovernance(BodyThen(body, t), network, body.kind) == Ok((body, t))
  {
    hide LE, ReadU8, ReadU32, ParseKeys, Flat, IsGovernance, ValidateVisibleAscii, ValidateRow;
    U8Back(); U32Back();
    KeysBack(body.proposers, [|body.approvers| % 256] + (Flat(body.approvers) + t));
    KeysBack(body.approvers, t);
  }

  lemma PolicyBack(body: Body, network: Network, t: seq<byte>)
    requires body.PolicyBody? && BodyOk(body, network)
    ensures ParsePolicy(BodyThen(body, t), network) == Ok((body, t))
  {
    hide ReadU8, ReadArray32, ValidateVisibleAscii, ValidateRow;
    U8Back(); ArrayBack();
  }

  lemma AssetPolicyBack(body: Body, network: Network, t: seq<byte>)
    requires body.AssetPolicyBody? && BodyOk(body, network)
    ensures ParseAssetPolicy(BodyThen(body, t), network) == Ok((body, t))
  {
    hide ReadU8, ReadArray32, ReadAscii, Text16, ValidateVisibleAscii, ValidateRow, IsZero, Network.ChainKind;
    var t1 := Text16(body.displayAsset, body.newPolicyCommitment + t);
    assert ReadAscii(t1, 16) == Ok((body.displayAsset, body.newPolicyCommitment + t)) by { AsciiBack(); }
    U8Back(); ArrayBack();
  }

  lemma EscrowReleaseBack(body: Body, network: Network, t: seq<byte>)
    requires body.EscrowReleaseBody? && BodyOk(body, network)
    ensures ParseEscrowRelease(BodyThen(body, t), network) == Ok((body, t))
  {
    hide ReadArray32, ReadAscii, Text16, ValidateVisibleAscii, ParseRow, RowThen, ValidateRow;
    ArrayBack(); AsciiBack();
    RowBack(body.payment, body.executionCommitment + t);
  }

  lemma EscrowReturnBack(body: Body, network: Network, t: seq<byte>)
    requires body.EscrowReturnBody? && BodyOk(body, network)
    ensures ParseEscrowReturn(BodyThen(body, t), network) == Ok((body, t))
  {
    hide ReadU8, ReadArray32, ReadAscii, Text16, ValidateVisibleAscii, ParseRows, RowsThen, ValidateRow;
    U8Back(); ArrayBack(); AsciiBack();
    assert body.rows == RowsOf(body);
    RowsBack(body.rows, body.executionCommitment + t);
  }

  lemma AgentTradeBack(body: Body, network: Network, t: seq<byte>)
    requires body.AgentTradeBody? && BodyOk(body, network)
    ensures ParseAgentTrade(BodyThen(body, t), network) == Ok((body, t))
  {
    hide LE, ReadU32, ReadU128, ReadArray32, ReadAscii, Text16, ValidateVisibleAscii, ValidateTexts;
    U32Back(); U128Back(); ArrayBack(); AsciiBack();
    var texts := [body.agentId, body.venue, body.market, body.side, body.assetId, body.sessionId, body.route];
    assert ValidateTexts(texts).Ok?;
    assert texts[0] == body.agentId && texts[1] == body.venue && texts[2] == body.market && texts[3] == body.side
           && texts[4] == body.assetId && texts[5] == body.sessionId && texts[6] == body.route;
  }

  lemma AgentSessionBack(body: Body, network: Network, t: seq<byte>)
    requires body.AgentSessionBody? && BodyOk(body, network)
    ensures ParseAgentSession(BodyThen(body, t), network) == Ok((body, t))
  {
    hide LE, ReadU8, ReadU32, ReadI64, ReadU128, ReadAscii, Text16, ValidateVisibleAscii, ValidateTexts;
    U8Back(); U32Back(); I64Back(); U128Back(); AsciiBack();
    var texts := [body.sessionId, body.agentId, body.venue, body.market];
    assert ValidateTexts(texts).Ok?;
    assert texts[0] == body.sessionId && texts[1] == body.agentId && texts[2] == body.venue && texts[3] == body.market;
  }

  lemma AgentRiskBack(body: Body, network: Network, t: seq<byte>)
    requires body.AgentRiskBody? && BodyOk(body, network)
    ensures ParseAgentRisk(BodyThen(body, t), network) == Ok((body, t))
  {
    hide LE, ReadU8, ReadU128, ReadArray32, ReadAscii, Text16, ValidateVisibleAscii;
    U8Back(); U128Back(); ArrayBack(); AsciiBack();
  }

  lemma AgentSettlementBack(body: Body, network: Network, t: seq<byte>)
    requires body.AgentSettlementBody? && BodyOk(body, network)
    ensures ParseAgentSettlement(BodyThen(body, t), network) == Ok((body, t))
  {
    hide LE, ReadU8, ReadU64, ReadU128, ReadArray32, ReadAscii, Text16, ValidateVisibleAscii;
    U8Back(); U64Back(); U128Back(); ArrayBack(); AsciiBack();
  }

  lemma RecurringBack(body: Body, network: Network, t: seq<byte>)
    requires body.RecurringBody? && BodyOk(body, network)
    ensures ParseRecurring(BodyThen(body, t), network) == Ok((body, t))
  {
    hide LE, ReadU8, ReadU32, ReadI64, ReadArray32, ReadAscii, Text16, ValidateVisibleAscii, ParseRow, RowThen,
      ValidateRow;
    U8Back(); U32Back(); I64Back(); ArrayBack(); AsciiBack();
    var spl := SplToken(body.payment);
    var t1 := LE(body.intervalSeconds, 4) + (LE(Twos(body.firstExecutionAt), 8)
              + (LE(body.paymentCount, 4) + ([body.status] + t)));
    RowBack(body.payment, (if spl then body.executionCommitment else []) + t1);
    assert [] + t1 == t1;
    assert ParseCommitment((if spl then body.executionCommitment else []) + t1, spl)
           == Ok((body.executionCommitment, t1));
  }

  lemma BodyBack(body: Body, network: Network, t: seq<byte>)
    requires BodyOk(body, network)
    ensures ParseBody(BodyThen(body, t), body.Kind(), network) == Ok((body, t))
  {
    hide BodyThen, ParseSend, ParseBatch, ParseGovernance, ParsePolicy, ParseAssetPolicy, ParseEscrowRelease,
      ParseEscrowReturn, ParseAgentTrade, ParseAgentSession, ParseAgentRisk, ParseAgentSettlement, ParseRecurring, Parsed,
      ValidateRow, ValidateTexts, ValidateVisibleAscii, ValidateFiat, IsZero, NativeSol, SplToken;
    match body {
      case SendBody(_, _, _) => SendBack(body, network, t);
      case BatchBody(_) => BatchBack(body, network, t);
      case GovernanceBody(_, _, _, _, _, _, _) => GovernanceBack(body, network, t);
      case PolicyBody(_, _) => PolicyBack(body, network, t);
      case AssetPolicyBody(_, _, _, _, _, _) => AssetPolicyBack(body, network, t);
      case EscrowReleaseBody(_, _, _, _, _, _) => EscrowReleaseBack(body, network, t);
      case EscrowReturnBody(_, _, _, _) => EscrowReturnBack(body, network, t);
      case AgentTradeBody(_, _, _, _, _, _, _, _, _, _) => AgentTradeBack(body, network, t);
      case AgentSessionBody(_, _, _, _, _, _, _, _) => AgentSessionBack(body, network, t);
      case AgentRiskBody(_, _, _, _) => AgentRiskBack(body, network, t);
      case AgentSettlementBody(_, _, _, _, _, _, _, _) => AgentSettlementBack(body, network, t);
      case RecurringBody(_, _, _, _, _, _, _) => RecurringBack(body, network, t);
    }
  }

  lemma HeaderBack(profile: DeviceProfile, kind: ActionKind, network: Network, t: seq<byte>)
    ensures ParseHeader(HeaderThen(profile, kind, network, t)) == Ok(((profile, kind, network), t))
  {
    hide ReadU8, Take, ActionKind.FromCode, Network.FromCode, DeviceProfile.FromCode,
      ActionKind.Code, Network.Code, DeviceProfile.Code;
    U8Back();
    TakeBack(INTENT_MAGIC, HeaderThen(profile, kind, network, t)[8..]);
  }

  lemma CommonBack(c: CommonFields, kind: ActionKind, t: seq<byte>)
    requires ValidateApproval(c.approvalRequired).Ok?
    ensures ParseCommon(CommonThen(c, kind, t)) == Ok(((c, kind), t))
  {
    hide LE, ReadU8, ReadU64, ReadI64, ReadArray32, ParseHeader, HeaderThen;
    HeaderBack(c.profile, kind, c.network,
      LE(c.proposalIndex, 8) + (c.walletId + (c.actor + (c.actionId + (c.nonce
      + (LE(Twos(c.expiresAt), 8) + (c.policyCommitment + ([c.approvalRequired] + t))))))));
    U8Back(); U64Back(); I64Back(); ArrayBack();
  }

  lemma ParseBack(q: Request)
    requires Accepted(q) && |Serialize(q)| <= MAX_CANONICAL_INTENT_BYTES
    ensures Parse(Serialize(q)) == Ok(q)
  {
    hide CommonThen, BodyThen, Text16, ParseCommon, ParseBody, ReadBytes, ValidateRow, ValidateBody, Visible, RowsOf;
    var t1 := Text16(q.reason, []);
    var t2 := BodyThen(q.body, t1);
    CommonBack(q.common, q.body.Kind(), t2);
    BodyBack(q.body, q.common.network, t1);
    TextBack(q.reason, MAX_REASON_BYTES, []);
  }

  // ----- Layouts split at their tail -----

  lemma RowSplit(row: TransferRow, t: seq<byte>)
    ensures RowThen(row, t) == RowThen(row, []) + t
    ensures |RowThen(row, t)| == 25 + |row.recipient| + |row.asset| + |row.displayAsset| + |t|
  {
    hide LE, Text16, IdentityEncoding.Code;
    var amount, d, c := LE(row.rawAmount, 16), [row.decimals], [row.assetEncoding.Code()];
    var shown := Text16(row.displayAsset, []);
    TextTail(row.displayAsset, t);
    var asset := amount + (d + shown);
    Assoc(d, shown, t);
    Assoc(amount, d + shown, t);
    TextStep(row.asset, asset, t);
    var rest := c + Text16(row.asset, asset);
    Assoc(c, Text16(row.asset, asset), t);
    TextStep(row.recipient, rest, t);
    Assoc([row.recipientEncoding.Code()], Text16(row.recipient, rest), t);
  }

  lemma RowStep(row: TransferRow, t: seq<byte>, u: seq<byte>)
    ensures RowThen(row, t + u) == RowThen(row, t) + u
  {
    hide RowThen;
    RowSplit(row, t + u);
    RowSplit(row, t);
    Assoc(RowThen(row, []), t, u);
  }

  lemma {:induction false} RowsSplit(rows: seq<TransferRow>, t: seq<byte>)
    ensures RowsThen(rows, t) == RowsThen(rows, []) + t
  {
    hide RowThen;
    if rows == [] {
      Nothing(t);
    } else {
      RowsSplit(rows[1..], t);
      RowStep(rows[0], RowsThen(rows[1..], []), t);
    }
  }

  lemma RowsStep(rows: seq<TransferRow>, t: seq<byte>, u: seq<byte>)
    ensures RowsThen(rows, t + u) == RowsThen(rows, t) + u
  {
    hide RowsThen;
    RowsSplit(rows, t + u);
    RowsSplit(rows, t);
    Assoc(RowsThen(rows, []), t, u);
  }

  lemma TextStep(v: seq<byte>, t: seq<byte>, u: seq<byte>)
    ensures Text16(v, t + u) == Text16(v, t) + u
  {
    hide LE;
    Assoc(v, t, u);
    Assoc(LE(|v|, 2), v + t, u);
  }

  /** A text is its own bytes followed by the tail. */
  lemma TextTail(v: seq<byte>, t: seq<byte>)
    ensures Text16(v, t) == Text16(v, []) + t
  {
    hide Text16;
    Nothing(t);
    TextStep(v, [], t);
  }

  lemma FiatSplit(fiat: Option<FiatEstimate>, t: seq<byte>)
    ensures FiatThen(fiat, t) == FiatThen(fiat, []) + t
  {
    hide LE, Text16;
    if fiat.Some? {
      var f := fiat.value;
      var o := LE(Twos(f.observedAt), 8);
      assert o + [] == o;
      TextStep(f.source, o, t);
      TextStep(f.currency, Text16(f.source, o), t);
      TextStep(f.amount, Text16(f.currency, Text16(f.source, o)), t);
    }
  }

  lemma TradeSplit(body: Body, t: seq<byte>)
    requires body.AgentTradeBody?
    ensures BodyThen(body, t) == BodyThen(body, []) + t
  {
    hide LE, Text16;
    var AgentTradeBody(agentId, venue, market, side, assetId, notional, leverage, sessionId, route, risk) := body;
    Nothing(risk);
    TextStep(route, risk, t);
    TextStep(sessionId, Text16(route, risk), t);
    var s := Text16(sessionId, Text16(route, risk));
    var limits := LE(notional, 16) + (LE(leverage, 4) + s);
    Assoc(LE(leverage, 4), s, t);
    Assoc(LE(notional, 16), LE(leverage, 4) + s, t);
    TextStep(assetId, limits, t);
    TextStep(side, Text16(assetId, limits), t);
    TextStep(market, Text16(side, Text16(assetId, limits)), t);
    TextStep(venue, Text16(market, Text16(side, Text16(assetId, limits))), t);
    TextStep(agentId, Text16(venue, Text16(market, Text16(side, Text16(assetId, limits)))), t);
  }

  lemma SessionSplit(body: Body, t: seq<byte>)
    requires body.AgentSessionBody?
    ensures BodyThen(body, t) == BodyThen(body, []) + t
  {
    hide LE, Text16;
    var AgentSessionBody(sessionId, agentId, venue, market, notional, leverage, expiry, status) := body;
    var limits := LE(notional, 16) + (LE(leverage, 4) + (LE(Twos(expiry), 8) + [status]));
    Nothing([status]);
    TailOut(LE(notional, 16), LE(leverage, 4), LE(Twos(expiry), 8), [status], t);
    TextStep(market, limits, t);
    TextStep(venue, Text16(market, limits), t);
    TextStep(agentId, Text16(venue, Text16(market, limits)), t);
    TextStep(sessionId, Text16(agentId, Text16(venue, Text16(market, limits))), t);
  }

  lemma SettlementSplit(body: Body, t: seq<byte>)
    requires body.AgentSettlementBody?
    ensures BodyThen(body, t) == BodyThen(body, []) + t
  {
    hide LE, Text16;
    var AgentSettlementBody(sessionId, executionId, artifact, oracle, closed, outcome, pnl, sequence) := body;
    var last := LE(pnl, 16) + LE(sequence, 8);
    Nothing(LE(sequence, 8));
    Assoc(LE(pnl, 16), LE(sequence, 8), t);
    Assoc([outcome], last, t);
    TailOut(artifact, oracle, LE(closed, 16), [outcome] + last, t);
    var proof := artifact + (oracle + (LE(closed, 16) + ([outcome] + last)));
    TextStep(executionId, proof, t);
    TextStep(sessionId, Text16(executionId, proof), t);
  }

  lemma RecurringSplit(body: Body, t: seq<byte>)
    requires body.RecurringBody?
    ensures BodyThen(body, t) == BodyThen(body, []) + t
  {
    hide LE, RowThen, Text16;
    var RecurringBody(scheduleId, row, commitment, interval, first, count, status) := body;
    var c := if SplToken(row) then commitment else [];
    var terms := LE(interval, 4) + (LE(Twos(first), 8) + (LE(count, 4) + [status]));
    Nothing([status]);
    TailOut(LE(interval, 4), LE(Twos(first), 8), LE(count, 4), [status], t);
    Assoc(c, terms, t);
    RowStep(row, c + terms, t);
    TextStep(scheduleId, RowThen(row, c + terms), t);
  }

  lemma EscrowSplit(body: Body, t: seq<byte>)
    requires body.EscrowReleaseBody? || body.EscrowReturnBody?
    ensures BodyThen(body, t) == BodyThen(body, []) + t
  {
    hide LE, RowThen, RowsThen, Text16;
    match body {
      case EscrowReleaseBody(escrowId, escrowTitle, milestoneId, milestoneTitle, row, commitment) =>
        Nothing(commitment);
        RowStep(row, commitment, t);
        var m := Text16(milestoneTitle, RowThen(row, commitment));
        TextStep(milestoneTitle, RowThen(row, commitment), t);
        TextStep(milestoneId, m, t);
        TextStep(escrowTitle, Text16(milestoneId, m), t);
        TextStep(escrowId, Text16(escrowTitle, Text16(milestoneId, m)), t);
      case EscrowReturnBody(escrowId, escrowTitle, rows, commitment) =>
        Nothing(commitment);
        RowsStep(rows, commitment, t);
        var n := [|rows| % 256];
        Assoc(n, RowsThen(rows, commitment), t);
        TextStep(escrowTitle, n + RowsThen(rows, commitment), t);
        TextStep(escrowId, Text16(escrowTitle, n + RowsThen(rows, commitment)), t);
    }
  }

  lemma RowBodySplit(body: Body, t: seq<byte>)
    requires body.SendBody? || body.BatchBody?
    ensures BodyThen(body, t) == BodyThen(body, []) + t
  {
    hide LE, RowThen, RowsThen, FiatThen;
    match body {
      case SendBody(row, commitment, fiat) =>
        FiatSplit(fiat, t);
        Assoc(commitment, FiatThen(fiat, []), t);
        RowStep(row, commitment + FiatThen(fiat, []), t);
      case BatchBody(rows) =>
        RowsSplit(rows, t);
        Assoc([|rows| % 256], RowsThen(rows, []), t);
    }
  }

  lemma GovernanceSplit(body: Body, t: seq<byte>)
    requires body.GovernanceBody? || body.PolicyBody?
    ensures BodyThen(body, t) == BodyThen(body, []) + t
  {
    hide LE, Flat;
    match body {
      case GovernanceBody(_, target, approval, cancellation, timelock, proposers, approvers) =>
        var signers := SignersThen(proposers, approvers, []);
        Nothing(Flat(approvers));
        TailOut([|proposers| % 256], Flat(proposers), [|approvers| % 256], Flat(approvers), t);
        Assoc(LE(timelock, 4), signers, t);
        TailOut([target], [approval], [cancellation], LE(timelock, 4) + signers, t);
      case PolicyBody(chainKind, commitment) =>
        Nothing(commitment);
        Assoc([chainKind], commitment, t);
    }
  }

  lemma AssetOrRiskSplit(body: Body, t: seq<byte>)
    requires body.AssetPolicyBody? || body.AgentRiskBody?
    ensures BodyThen(body, t) == BodyThen(body, []) + t
  {
    hide LE, Text16;
    match body {
      case AssetPolicyBody(chainKind, scopeKind, decimals, mint, displayAsset, commitment) =>
        Nothing(commitment);
        TextStep(displayAsset, commitment, t);
        var rest := Text16(displayAsset, commitment);
        Assoc(mint, rest, t);
        TailOut([chainKind], [scopeKind], [decimals], mint + rest, t);
      case AgentRiskBody(sessionId, oracle, maxLoss, status) =>
        Nothing([status]);
        var rest := LE(maxLoss, 16) + [status];
        Assoc(LE(maxLoss, 16), [status], t);
        Assoc(oracle, rest, t);
        TextStep(sessionId, oracle + rest, t);
    }
  }

  /** Every layout is its own bytes followed by the tail. */
  lemma BodySplit(body: Body, t: seq<byte>)
    ensures BodyThen(body, t) == BodyThen(body, []) + t
  {
    hide BodyThen;
    match body {
      case SendBody(_, _, _) => RowBodySplit(body, t);
      case BatchBody(_) => RowBodySplit(body, t);
      case EscrowReleaseBody(_, _, _, _, _, _) => EscrowSplit(body, t);
      case EscrowReturnBody(_, _, _, _) => EscrowSplit(body, t);
      case AgentTradeBody(_, _, _, _, _, _, _, _, _, _) => TradeSplit(body, t);
      case AgentSessionBody(_, _, _, _, _, _, _, _) => SessionSplit(body, t);
      case AgentSettlementBody(_, _, _, _, _, _, _, _) => SettlementSplit(body, t);
      case RecurringBody(_, _, _, _, _, _, _) => RecurringSplit(body, t);
      case GovernanceBody(_, _, _, _, _, _, _) => GovernanceSplit(body, t);
      case PolicyBody(_, _) => GovernanceSplit(body, t);
      case _ => AssetOrRiskSplit(body, t);
    }
  }

  lemma CommonSplit(c: CommonFields, kind: ActionKind, t: seq<byte>)
    ensures CommonThen(c, kind, t) == CommonThen(c, kind, []) + t
  {
    hide LE, ActionKind.Code, Network.Code, DeviceProfile.Code;
    var last := LE(Twos(c.expiresAt), 8) + (c.policyCommitment + [c.approvalRequired]);
    Nothing([c.approvalRequired]);
    Assoc(c.policyCommitment, [c.approvalRequired], t);
    Assoc(LE(Twos(c.expiresAt), 8), c.policyCommitment + [c.approvalRequired], t);
    Assoc(c.nonce, last, t);
    TailOut(c.walletId, c.actor, c.actionId, c.nonce + last, t);
    var rest := c.walletId + (c.actor + (c.actionId + (c.nonce + last)));
    Assoc(LE(c.proposalIndex, 8), rest, t);
    Assoc([c.network.Code()], LE(c.proposalIndex, 8) + rest, t);
    TailOut(INTENT_MAGIC, [INTENT_VERSION], [c.profile.Code()], [kind.Code()] + ([c.network.Code()] + (LE(c.proposalIndex, 8) + rest)), t);
    Assoc([kind.Code()], [c.network.Code()] + (LE(c.proposalIndex, 8) + rest), t);
  }

  /** The three parts of a layout. */
  lemma SerializeParts(q: Request)
    ensures Serialize(q) == CommonThen(q.common, q.body.Kind(), []) + BodyThen(q.body, []) + Text16(q.reason, [])
  {
    hide CommonThen, BodyThen, Text16;
    var reason := Text16(q.reason, []);
    CommonSplit(q.common, q.body.Kind(), BodyThen(q.body, reason));
    BodySplit(q.body, reason);
  }

  lemma CommonLength(c: CommonFields, kind: ActionKind, t: seq<byte>)
    ensures |CommonThen(c, kind, t)| == 189 + |t|
  {
    hide LE;
  }

  lemma {:induction false} RowsFitIff(rows: seq<TransferRow>, used: nat, capacity: nat)
    requires used <= capacity
    ensures RowsFit(rows, used, capacity).Ok? <==>
              (forall i :: 0 <= i < |rows| ==> ValidateRow(rows[i]).Ok?)
              && used + |RowsThen(rows, [])| <= capacity
  {
    hide RowThen, ValidateRow;
    if rows != [] {
      RowSplit(rows[0], RowsThen(rows[1..], []));
      var used' := used + |RowThen(rows[0], [])|;
      if used' <= capacity {
        RowsFitIff(rows[1..], used', capacity);
      }
      assert rows == [rows[0]] + rows[1..];
    }
  }

  lemma HeadLength(body: Body)
    requires RowsOf(body) != []
    ensures |BodyHead(body)| + |RowsThen(RowsOf(body), [])| <= |BodyThen(body, [])|
  {
    hide LE, RowThen, RowsThen;
    match body {
      case BatchBody(rows) =>
      case EscrowReturnBody(id, title, rows, commitment) => RowsSplit(rows, commitment + []);
    }
  }

  // ----- Main results -----

  /** `parse_intent` accepts exactly the layouts of acceptable requests that fit 2048 bytes, and
      returns the request it was laid out from: the wire format is canonical. */
  lemma ParseIffSerialized(b: seq<byte>, q: Request)
    ensures Parse(b) == Ok(q) <==> Accepted(q) && b == Serialize(q) && |b| <= MAX_CANONICAL_INTENT_BYTES
  {
    hide Parse, Serialize, Accepted;
    if Accepted(q) && b == Serialize(q) && |b| <= MAX_CANONICAL_INTENT_BYTES {
      ParseBack(q);
    }
  }

  /** The encoders succeed exactly on acceptable requests whose layout fits the buffer, and write
      that layout. */
  lemma EncodeIffSerialized(q: Request, capacity: nat, b: seq<byte>)
    ensures Encode(q, capacity) == Ok(b) <==> Accepted(q) && b == Serialize(q) && |b| <= capacity
  {
    hide Serialize, BodyHead, ValidateRequest, ValidateRow, RowsThen, BodyThen, CommonThen;
    SerializeParts(q);
    CommonLength(q.common, q.body.Kind(), []);
    var rows := RowsOf(q.body);
    if rows != [] {
      HeadLength(q.body);
      var head := 189 + |BodyHead(q.body)|;
      if head <= capacity {
        RowsFitIff(rows, head, capacity);
      }
    }
  }

  /** Encoding, then parsing: the same common fields, body, rows and reason come back. */
  lemma RoundTrip(q: Request, capacity: nat, b: seq<byte>)
    requires Encode(q, capacity) == Ok(b) && |b| <= MAX_CANONICAL_INTENT_BYTES
    ensures Parse(b) == Ok(q)
  {
    hide Encode, Parse, Serialize, Accepted;
    EncodeIffSerialized(q, capacity, b);
    ParseIffSerialized(b, q);
  }

  /** Parsing, then encoding with the matching encoder: the same bytes come back. */
  lemma Canonical(b: seq<byte>, q: Request, capacity: nat)
    requires Parse(b) == Ok(q) && |b| <= capacity
    ensures Encode(q, capacity) == Ok(b)
  {
    hide Encode, Parse, Serialize, Accepted;
    ParseIffSerialized(b, q);
    EncodeIffSerialized(q, capacity, b);
  }

  /** No two byte strings denote the same intent. */
  lemma ParseInjective(a: seq<byte>, b: seq<byte>)
    requires Parse(a).Ok? && Parse(a) == Parse(b)
    ensures a == b
  {
    hide Parse, Serialize, Accepted;
    ParseIffSerialized(a, Parse(a).value);
    ParseIffSerialized(b, Parse(a).value);
  }

  /** The checked texts of an agent body are short enough for their length prefixes. */
  lemma TextsShort(body: Body, network: Network)
    requires (body.AgentTradeBody? || body.AgentSessionBody?) && BodyOk(body, network)
    ensures body.AgentTradeBody? ==>
              |body.agentId| <= 96 && |body.venue| <= 96 && |body.market| <= 96 && |body.side| <= 96
              && |body.assetId| <= 96 && |body.sessionId| <= 96 && |body.route| <= 96
    ensures body.AgentSessionBody? ==>
              |body.sessionId| <= 96 && |body.agentId| <= 96 && |body.venue| <= 96 && |body.market| <= 96
  {
    hide Visible, ValidateTexts;
    if body.AgentTradeBody? {
      var texts := [body.agentId, body.venue, body.market, body.side, body.assetId, body.sessionId, body.route];
      assert ValidateTexts(texts).Ok?;
      assert texts[0] == body.agentId && texts[1] == body.venue && texts[2] == body.market && texts[3] == body.side
             && texts[4] == body.assetId && texts[5] == body.sessionId && texts[6] == body.route;
    } else {
      var texts := [body.sessionId, body.agentId, body.venue, body.market];
      assert ValidateTexts(texts).Ok?;
      assert texts[0] == body.sessionId && texts[1] == body.agentId && texts[2] == body.venue
             && texts[3] == body.market;
    }
  }

  lemma PaymentLength(body: Body, network: Network, t: seq<byte>)
    requires BodyOk(body, network) && (body.SendBody? || body.EscrowReleaseBody? || body.RecurringBody?)
    ensures |BodyThen(body, t)| <= (if body.SendBody? then 488 else 1033) + |t|
  {
    hide LE, RowThen, Visible, FiatAmountText;
    match body {
      case SendBody(row, commitment, fiat) => RowSplit(row, commitment + FiatThen(fiat, t));
      case EscrowReleaseBody(_, _, _, _, row, commitment) => RowSplit(row, commitment + t);
      case RecurringBody(_, row, commitment, interval, first, count, status) =>
        RowSplit(row, (if SplToken(row) then commitment else [])
                      + (LE(interval, 4) + (LE(Twos(first), 8) + (LE(count, 4) + ([status] + t)))));
    }
  }

  lemma RowlessBodyLength(body: Body, network: Network, t: seq<byte>)
    requires BodyOk(body, network) && RowsOf(body) == []
    ensures |BodyThen(body, t)| <= (if body.SendBody? then 488 else 1033) + |t|
  {
    hide LE, RowThen, Visible, FiatAmountText, ValidateTexts;
    match body {
      case SendBody(_, _, _) => PaymentLength(body, network, t);
      case EscrowReleaseBody(_, _, _, _, _, _) => PaymentLength(body, network, t);
      case RecurringBody(_, _, _, _, _, _, _) => PaymentLength(body, network, t);
      case AgentTradeBody(_, _, _, _, _, _, _, _, _, _) => TextsShort(body, network);
      case AgentSessionBody(_, _, _, _, _, _, _, _) => TextsShort(body, network);
      case _ =>
    }
  }

  /** Only requests that carry rows can outgrow what the parser takes. */
  lemma RowlessFits(q: Request)
    requires Accepted(q) && RowsOf(q.body) == []
    ensures |Serialize(q)| <= 1384 < MAX_CANONICAL_INTENT_BYTES
    ensures q.body.SendBody? ==> |Serialize(q)| <= 839
  {
    hide LE, CommonThen, BodyThen, ValidateBody, ValidateRow, ValidateFiat, Visible;
    var reason := Text16(q.reason, []);
    CommonLength(q.common, q.body.Kind(), BodyThen(q.body, reason));
    RowlessBodyLength(q.body, q.common.network, reason);
  }

  /** Iterating over the rows of a parsed batch or escrow return never stops early: it yields
      `rowCount` rows, and they are exactly what `encodedRows` spells. */
  lemma {:induction false} RowsExact(rows: seq<TransferRow>)
    requires forall i :: 0 <= i < |rows| ==> ValidateRow(rows[i]).Ok?
    ensures Rows(RowsThen(rows, []), |rows|) == rows
  {
    hide RowThen, ParseRow, ValidateRow;
    if rows != [] {
      RowBack(rows[0], RowsThen(rows[1..], []));
      RowsExact(rows[1..]);
      assert rows == [rows[0]] + rows[1..];
    }
  }

  /** The slices a parsed action keeps read back as what was parsed. */
  ghost predicate SlicesDecode(body: Body) {
    var action := ActionOf(body);
    && (action.BatchAction? || action.EscrowReturnAction? ==>
          && Rows(action.encodedRows, action.rowCount) == RowsOf(body) && |RowsOf(body)| == action.rowCount
          && action.encodedRows == RowsThen(RowsOf(body), []))
    && (action.TransferAction? ==> ParseFiat(action.encodedFiatEstimate) == Ok((body.fiat, [])))
  }

  lemma ParsedSlicesDecode(b: seq<byte>, q: Request)
    requires Parse(b) == Ok(q)
    ensures SlicesDecode(q.body)
  {
    hide Parse, Serialize, ValidateRow, ParseFiat, ValidateFiat, RowsThen, Rows, FiatThen, Visible;
    RowsExact(RowsOf(q.body));
    if q.body.SendBody? {
      FiatBack(q.body.fiat, []);
    }
  }

  /** A parsed intent holds the fields it was laid out from, its own bytes, and for a governance change
      the keys of either list, 32 bytes each. */
  lemma IntentHolds(q: Request)
    requires Accepted(q)
    ensures var intent, body := IntentOf(q), q.body;
      && intent.common == q.common && intent.reason == q.reason && intent.encoded == Serialize(q) && intent.Kind() == body.Kind()
      && match intent.action
         case TransferAction(row, commitment, _) => body.SendBody? && row == body.row && commitment == body.executionCommitment
         case BatchAction(_, count) => body.BatchBody? && count == |body.rows|
         case EscrowReturnAction(id, title, _, count, commitment) =>
           body.EscrowReturnBody? && id == body.escrowId && title == body.escrowTitle && count == |body.rows|
           && commitment == body.executionCommitment
         case GovernanceAction(kind, target, approval, cancellation, timelock, proposers, n, approvers, m) =>
           && body.GovernanceBody? && body == GovernanceBody(kind, target, approval, cancellation, timelock, body.proposers, body.approvers)
           && n == |body.proposers| && m == |body.approvers| && KeysAt(proposers, body.proposers) && KeysAt(approvers, body.approvers)
         case DirectAction(direct) => direct == body
  {
    hide Serialize, ValidateRow, Flat, KeysAt, Visible, ValidateTexts, Ascii;
    if q.body.GovernanceBody? {
      FlatAt(q.body.proposers);
      FlatAt(q.body.approvers);
    }
  }

  predicate KeysAt(b: seq<byte>, keys: seq<Bytes32>) {
    |b| == 32 * |keys| && forall i :: 0 <= i < |keys| ==> b[32 * i..32 * i + 32] == keys[i]
  }

  lemma {:induction false} FlatAt(keys: seq<Bytes32>)
    ensures KeysAt(Flat(keys), keys)
  {
    if keys != [] {
      FlatAt(keys[1..]);
      var b, rest := Flat(keys), Flat(keys[1..]);
      forall i | 0 <= i < |keys| ensures b[32 * i..32 * i + 32] == keys[i] {
        if i > 0 {
          assert b[32 * i..32 * i + 32] == rest[32 * (i - 1)..32 * (i - 1) + 32];
        }
      }
    }
  }
}

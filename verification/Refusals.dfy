/** Why a request or an intent is refused: the first of its checks that fails, in the order in which an encoder
    makes them and in the order in which the parser meets them. */
module Refusals {
  import opened Base
  import opened Model
  import opened Wire
  import opened Acceptance
  import CodecLaws

  // ----- Checks -----

  /** The error of a check that fails. */
  type Fault = Option<Error>

  function Unless(condition: bool, error: Error): Fault {
    if condition then None else Some(error)
  }

  function FaultOf(c: Check): Fault {
    if c.Ok? then None else Some(c.error)
  }

  /** The first fault of a list. */
  function First(checks: seq<Fault>): Fault {
    if checks == [] then None else if checks[0].Some? then checks[0] else First(checks[1..])
  }

  /** Bounded length first, then visible ASCII. */
  function Text(s: seq<byte>, least: nat, most: nat): Fault {
    if !(least <= |s| <= most) then Some(InvalidLength)
    else if forall i :: 0 <= i < |s| ==> 0x20 <= s[i] <= 0x7e then None else Some(InvalidText)
  }

  function Identity(encoding: IdentityEncoding, value: seq<byte>, most: nat): Fault {
    if encoding == SolanaPubkey then Unless(|value| == 32, InvalidLength) else Text(value, 1, most)
  }

  function RowChecks(r: TransferRow): seq<Fault> {
    [Identity(r.recipientEncoding, r.recipient, 192), Identity(r.assetEncoding, r.asset, 96),
     Text(r.displayAsset, 1, 24), Unless(r.rawAmount >= 1 && r.decimals <= 36, InvalidAmount)]
  }

  function Row(r: TransferRow): Fault { First(RowChecks(r)) }

  /** A row is read whole before it is checked. */
  function RowReadChecks(r: TransferRow): seq<Fault> {
    [Unless(|r.recipient| <= 192, InvalidLength), Unless(|r.asset| <= 96, InvalidLength),
     Unless(|r.displayAsset| <= 24, InvalidLength), Row(r)]
  }

  function RowRead(r: TransferRow): Fault { First(RowReadChecks(r)) }

  function Rows(rows: seq<TransferRow>): Fault {
    if rows == [] then None else if Row(rows[0]).Some? then Row(rows[0]) else Rows(rows[1..])
  }

  function RowsRead(rows: seq<TransferRow>): Fault {
    if rows == [] then None else if RowRead(rows[0]).Some? then RowRead(rows[0]) else RowsRead(rows[1..])
  }

  function Estimate(fiat: Option<FiatEstimate>): Fault {
    match fiat
    case None => None
    case Some(f) => First(EstimateChecks(f))
  }

  function EstimateChecks(f: FiatEstimate): seq<Fault> {
    [Text(f.amount, 1, 32), Text(f.currency, 1, 8), Text(f.source, 1, 64),
     Unless(f.observedAt >= 1 && AmountGood(f.amount), InvalidAmount)]
  }

  lemma FirstFrom(checks: seq<Fault>)
    ensures First(checks) == First(checks[0..])
    ensures forall k {:trigger First(checks[k..])} :: 0 <= k <= |checks| ==>
              First(checks[k..]) ==
              if k == |checks| then None else if checks[k].Some? then checks[k] else First(checks[k + 1..])
  {
    assert checks[0..] == checks;
    forall k {:trigger First(checks[k..])} | 0 <= k <= |checks|
      ensures First(checks[k..]) ==
              if k == |checks| then None else if checks[k].Some? then checks[k] else First(checks[k + 1..])
    {
      assert k < |checks| ==> checks[k..][1..] == checks[k + 1..];
    }
  }

  // ----- The checks of the encoders -----

  /** What an encoder checks of a body before anything else, in order. */
  function BodyChecks(body: Body, network: Network): seq<Fault> {
    match body
    case SendBody(row, _, _) => [Row(row)]
    case BatchBody(rows) => [Unless(1 <= |rows| <= 16, InvalidLength)]
    case GovernanceBody(_, _, _, _, _, _, _) => [Unless(BodyGood(body, network), InvalidContext)]
    case PolicyBody(_, _) => [Unless(BodyGood(body, network), InvalidContext)]
    case AssetPolicyBody(chainKind, scopeKind, decimals, mint, displayAsset, _) =>
      [Unless(chainKind == network.ChainKind() && scopeKind == 1 && decimals <= 18 && PresentOrNot(mint, true),
              InvalidContext),
       Text(displayAsset, 1, 16)]
    case EscrowReleaseBody(escrowId, escrowTitle, milestoneId, milestoneTitle, payment, _) =>
      [Text(escrowId, 1, 96), Text(escrowTitle, 1, 96), Text(milestoneId, 1, 96), Text(milestoneTitle, 1, 96),
       Row(payment)]
    case EscrowReturnBody(escrowId, escrowTitle, rows, _) =>
      [Unless(1 <= |rows| <= 16, InvalidLength), Text(escrowId, 1, 96), Text(escrowTitle, 1, 96)]
    case AgentTradeBody(agentId, venue, market, side, assetId, notional, leverage, sessionId, route, _) =>
      [Text(agentId, 1, 96), Text(venue, 1, 96), Text(market, 1, 96), Text(side, 1, 96), Text(assetId, 1, 96),
       Text(sessionId, 1, 96), Text(route, 1, 96), Trade(side, notional, leverage)]
    case AgentSessionBody(sessionId, agentId, venue, market, notional, leverage, _, status) =>
      [Text(sessionId, 1, 96), Text(agentId, 1, 96), Text(venue, 1, 96), Text(market, 1, 96),
       Unless(notional >= 1 && leverage >= 1 && (status == 1 || status == 2), InvalidContext)]
    case AgentRiskBody(sessionId, _, maxLoss, status) =>
      [Text(sessionId, 1, 96), Unless((status == 1 && maxLoss >= 1) || status == 2, InvalidContext)]
    case AgentSettlementBody(sessionId, executionId, _, _, closed, outcome, pnl, _) =>
      [Text(sessionId, 1, 96), Text(executionId, 1, 96),
       Unless(closed >= 1 && (((outcome == 1 || outcome == 2) && pnl >= 1) || (outcome == 3 && pnl == 0)),
              InvalidAmount)]
    case RecurringBody(scheduleId, payment, commitment, interval, _, count, status) =>
      [Text(scheduleId, 1, 96), Row(payment),
       Unless(((Native(payment) && PresentOrNot(commitment, false))
               || (Token(payment) && PresentOrNot(commitment, true)))
            && interval >= 3600 && 1 <= count <= 1000 && (status == 1 || status == 2), InvalidContext)]
  }

  function Trade(side: seq<byte>, notional: u128, leverage: u32): Fault {
    Unless((side == [0x6c, 0x6f, 0x6e, 0x67] || side == [0x73, 0x68, 0x6f, 0x72, 0x74]) && notional >= 1 && leverage >= 1,
         InvalidAmount)
  }

  predicate Native(r: TransferRow) {
    r.asset == [0x53, 0x4f, 0x4c] && r.assetEncoding == IdentityEncoding.Text && r.decimals == 9
  }

  predicate Token(r: TransferRow) { r.assetEncoding == SolanaPubkey && |r.asset| == 32 && r.decimals <= 18 }

  /** All that an encoder checks before its first write, in order. */
  function FieldChecks(q: Request): seq<Fault> {
    [First(BodyChecks(q.body, q.common.network)), Text(q.reason, 0, 160),
     Estimate(if q.body.SendBody? then q.body.fiat else None),
     Unless(1 <= q.common.approvalRequired <= 16, InvalidContext)]
  }

  /** Every check of an encoder, those of the row loop last. */
  function EncodeChecks(q: Request): seq<Fault> {
    FieldChecks(q) + [Rows(RowsOf(q.body))]
  }

  lemma TextSame(s: seq<byte>, most: nat)
    ensures FaultOf(ValidateVisibleAscii(s, most, false)) == Text(s, 1, most)
    ensures FaultOf(ValidateVisibleAscii(s, most, true)) == Text(s, 0, most)
  {
  }

  lemma IdentitySame(encoding: IdentityEncoding, value: seq<byte>, most: nat)
    requires most >= 32
    ensures FaultOf(ValidateIdentity(encoding, value, most)) == Identity(encoding, value, most)
  {
  }

  lemma RowSame(r: TransferRow)
    ensures FaultOf(ValidateRow(r)) == Row(r)
  {
    hide ValidateVisibleAscii, Text, ValidateIdentity, Identity;
    IdentitySame(r.recipientEncoding, r.recipient, 192);
    IdentitySame(r.assetEncoding, r.asset, 96);
    TextSame(r.displayAsset, 24);
    FirstFrom(RowChecks(r));
  }

  lemma NotEmpty(s: seq<byte>, most: nat)
    ensures Text(s, 1, most).None? ==> s != []
  {
  }

  lemma EstimateSame(fiat: Option<FiatEstimate>)
    ensures FaultOf(ValidateOptionalFiat(fiat)) == Estimate(fiat)
  {
    hide ValidateVisibleAscii, Text, Dots;
    if fiat.Some? {
      var f := fiat.value;
      TextSame(f.amount, 32);
      TextSame(f.currency, 8);
      TextSame(f.source, 64);
      DotsAre(f.amount);
      FirstFrom(EstimateChecks(f));
      assert Text(f.amount, 1, 32).None? ==> f.amount != [] by { NotEmpty(f.amount, 32); }
    }
  }

  lemma {:induction false} TextsSame(values: seq<seq<byte>>, last: Fault)
    ensures (if ValidateTexts(values).Err? then Some(ValidateTexts(values).error) else last)
            == First(seq(|values|, i requires 0 <= i < |values| => Text(values[i], 1, 96)) + [last])
  {
    hide ValidateVisibleAscii, Text;
    var checks := seq(|values|, i requires 0 <= i < |values| => Text(values[i], 1, 96)) + [last];
    if values == [] {
      assert checks == [last] && checks[1..] == [];
    } else {
      TextSame(values[0], 96);
      TextsSame(values[1..], last);
      assert checks[1..] == seq(|values| - 1, i requires 0 <= i < |values| - 1 => Text(values[1..][i], 1, 96)) + [last];
    }
  }

  lemma TradeSame(body: Body, network: Network)
    requires body.AgentTradeBody?
    ensures FaultOf(ValidateBody(body, network)) == First(BodyChecks(body, network))
  {
    hide ValidateVisibleAscii, ValidateTexts, Text, Ascii, First;
    Sides();
    var texts := [body.agentId, body.venue, body.market, body.side, body.assetId, body.sessionId, body.route];
    var last := Trade(body.side, body.maxNotionalRaw, body.maxLeverageX100);
    TextsSame(texts, last);
    assert seq(7, i requires 0 <= i < 7 => Text(texts[i], 1, 96)) + [last] == BodyChecks(body, network);
  }

  lemma SessionSame(body: Body, network: Network)
    requires body.AgentSessionBody?
    ensures FaultOf(ValidateBody(body, network)) == First(BodyChecks(body, network))
  {
    hide ValidateVisibleAscii, ValidateTexts, Text, First;
    var last := Unless(body.maxNotionalRaw >= 1 && body.maxLeverageX100 >= 1 && (body.status == 1 || body.status == 2),
                       InvalidContext);
    var texts := [body.sessionId, body.agentId, body.venue, body.market];
    TextsSame(texts, last);
    assert seq(4, i requires 0 <= i < 4 => Text(texts[i], 1, 96)) + [last] == BodyChecks(body, network);
  }

  lemma AgentSame(body: Body, network: Network)
    requires body.AgentRiskBody? || body.AgentSettlementBody?
    ensures FaultOf(ValidateBody(body, network)) == First(BodyChecks(body, network))
  {
    hide ValidateVisibleAscii, Text;
    FirstFrom(BodyChecks(body, network));
    TextSame(body.sessionId, 96);
    if body.AgentSettlementBody? {
      TextSame(body.executionId, 96);
    }
  }

  lemma PaymentSame(body: Body, network: Network)
    requires body.SendBody? || body.EscrowReleaseBody? || body.RecurringBody?
    ensures FaultOf(ValidateBody(body, network)) == First(BodyChecks(body, network))
  {
    hide ValidateVisibleAscii, ValidateRow, Row, Text, Ascii, IsZero, PresentOrNot;
    FirstFrom(BodyChecks(body, network));
    match body {
      case SendBody(row, _, _) => RowSame(row);
      case EscrowReleaseBody(escrowId, escrowTitle, milestoneId, milestoneTitle, payment, _) =>
        TextSame(escrowId, 96);
        TextSame(escrowTitle, 96);
        TextSame(milestoneId, 96);
        TextSame(milestoneTitle, 96);
        RowSame(payment);
      case RecurringBody(scheduleId, payment, commitment, _, _, _, _) =>
        TextSame(scheduleId, 96);
        RowSame(payment);
        PresentIff(commitment);
        Sides();
    }
  }

  lemma ListSame(body: Body, network: Network)
    requires body.BatchBody? || body.GovernanceBody? || body.PolicyBody? || body.AssetPolicyBody?
             || body.EscrowReturnBody?
    ensures FaultOf(ValidateBody(body, network)) == First(BodyChecks(body, network))
  {
    hide ValidateVisibleAscii, Text, IsZero, PresentOrNot, Network.ChainKind, IsGovernance, ActionKind.Code;
    FirstFrom(BodyChecks(body, network));
    match body {
      case BatchBody(_) =>
      case GovernanceBody(kind, _, _, _, _, _, _) => KindIff(kind);
      case PolicyBody(_, _) =>
      case AssetPolicyBody(_, _, _, mint, displayAsset, _) =>
        PresentIff(mint);
        TextSame(displayAsset, 16);
      case EscrowReturnBody(escrowId, escrowTitle, _, _) =>
        TextSame(escrowId, 96);
        TextSame(escrowTitle, 96);
    }
  }

  lemma RequestSame(q: Request)
    ensures FaultOf(ValidateRequest(q)) == First(FieldChecks(q))
  {
    hide ValidateBody, ValidateVisibleAscii, ValidateFiat, BodyChecks, Text, EstimateChecks;
    FirstFrom(FieldChecks(q));
    TextSame(q.reason, 160);
    EstimateSame(if q.body.SendBody? then q.body.fiat else None);
    match q.body {
      case SendBody(_, _, _) => PaymentSame(q.body, q.common.network);
      case EscrowReleaseBody(_, _, _, _, _, _) => PaymentSame(q.body, q.common.network);
      case RecurringBody(_, _, _, _, _, _, _) => PaymentSame(q.body, q.common.network);
      case BatchBody(_) => ListSame(q.body, q.common.network);
      case GovernanceBody(_, _, _, _, _, _, _) => ListSame(q.body, q.common.network);
      case PolicyBody(_, _) => ListSame(q.body, q.common.network);
      case AssetPolicyBody(_, _, _, _, _, _) => ListSame(q.body, q.common.network);
      case EscrowReturnBody(_, _, _, _) => ListSame(q.body, q.common.network);
      case AgentTradeBody(_, _, _, _, _, _, _, _, _, _) => TradeSame(q.body, q.common.network);
      case AgentSessionBody(_, _, _, _, _, _, _, _) => SessionSame(q.body, q.common.network);
      case _ => AgentSame(q.body, q.common.network);
    }
  }

  /** With room for the rows, their loop reports the first check that a row fails. */
  lemma {:induction false} RowsRoom(rows: seq<TransferRow>, used: nat, capacity: nat)
    requires used + |RowsThen(rows, [])| <= capacity
    ensures RowsFit(rows, used, capacity)
            == if Rows(rows).Some? then Err(Rows(rows).value) else Ok(used + |RowsThen(rows, [])|)
  {
    hide RowThen, ValidateRow, Row;
    if rows != [] {
      RowSame(rows[0]);
      CodecLaws.RowSplit(rows[0], RowsThen(rows[1..], []));
      RowsRoom(rows[1..], used + |RowThen(rows[0], [])|, capacity);
    }
  }

  lemma RowsInside(body: Body)
    ensures RowsOf(body) != [] ==> |BodyHead(body)| + |RowsThen(RowsOf(body), [])| <= |BodyThen(body, [])|
  {
    hide RowThen;
    match body {
      case BatchBody(_) =>
      case EscrowReturnBody(_, _, rows, commitment) => CodecLaws.RowsSplit(rows, commitment + []);
      case _ =>
    }
  }

  /** What an encoder answers: the first failing field check whatever the buffer; with room for the layout, the first
      failing check of all, or the layout. */
  lemma EncodeAnswer(q: Request, capacity: nat)
    ensures First(FieldChecks(q)).Some? ==> Encode(q, capacity) == Err(First(FieldChecks(q)).value)
    ensures |Serialize(q)| <= capacity ==>
              Encode(q, capacity)
              == if First(EncodeChecks(q)).Some? then Err(First(EncodeChecks(q)).value) else Ok(Serialize(q))
  {
    hide Serialize, ValidateRequest, FieldChecks, BodyHead, BodyThen, RowsThen, Rows, RowsFit;
    RequestSame(q);
    RowsInside(q.body);
    Both(FieldChecks(q), Rows(RowsOf(q.body)));
    CodecLaws.SerializeParts(q);
    if |Serialize(q)| <= capacity {
      if RowsOf(q.body) == [] {
        NoRows();
        RowsRoom([], 0, capacity);
      } else {
        RowsRoom(RowsOf(q.body), 189 + |BodyHead(q.body)|, capacity);
      }
    }
  }

  lemma NoRows()
    ensures RowsThen([], []) == [] && Rows([]) == None
  {
  }

  lemma {:induction false} Both(checks: seq<Fault>, last: Fault)
    ensures First(checks + [last]) == if First(checks).Some? then First(checks) else last
  {
    if checks == [] {
      assert (checks + [last])[0] == last && (checks + [last])[1..] == [];
    } else {
      Both(checks[1..], last);
      assert (checks + [last])[1..] == checks[1..] + [last];
    }
  }

  // ----- The checks of the parser -----

  /** What the parser checks of a laid-out body, in order. */
  function ReadChecks(body: Body, network: Network): seq<Fault> {
    match body
    case SendBody(row, _, fiat) => [RowRead(row), Estimate(fiat)]
    case BatchBody(rows) => [Unless(1 <= |rows| <= 16, InvalidLength), RowsRead(rows)]
    case AssetPolicyBody(chainKind, scopeKind, decimals, mint, displayAsset, _) =>
      [Text(displayAsset, 1, 16),
       Unless(chainKind == network.ChainKind() && scopeKind == 1 && decimals <= 18 && PresentOrNot(mint, true),
              InvalidContext)]
    case EscrowReleaseBody(escrowId, escrowTitle, milestoneId, milestoneTitle, payment, _) =>
      [Text(escrowId, 1, 96), Text(escrowTitle, 1, 96), Text(milestoneId, 1, 96), Text(milestoneTitle, 1, 96),
       RowRead(payment)]
    case EscrowReturnBody(escrowId, escrowTitle, rows, _) =>
      [Text(escrowId, 1, 96), Text(escrowTitle, 1, 96), Unless(1 <= |rows| <= 16, InvalidLength), RowsRead(rows)]
    case RecurringBody(scheduleId, payment, commitment, interval, _, count, status) =>
      [Text(scheduleId, 1, 96), RowRead(payment), Unless(Native(payment) || Token(payment), InvalidContext),
       Unless(Token(payment) ==> PresentOrNot(commitment, true), InvalidContext),
       Unless(interval >= 3600 && 1 <= count <= 1000 && (status == 1 || status == 2), InvalidContext)]
    case _ => BodyChecks(body, network)
  }

  /** All that the parser checks of a laid-out request behind its header. */
  function ParseChecks(q: Request): seq<Fault> {
    [Unless(1 <= q.common.approvalRequired <= 16, InvalidContext), First(ReadChecks(q.body, q.common.network)),
     Text(q.reason, 0, 160)]
  }

  function Answer<T>(fault: Fault, v: T, t: seq<byte>): Read<T> {
    if fault.Some? then Err(fault.value) else Ok((v, t))
  }

  lemma BytesAnswer()
    ensures forall v: seq<byte>, max: nat, t: seq<byte> {:trigger ReadBytes(Text16(v, t), max)} ::
              |v| < 0x1_0000 ==> ReadBytes(Text16(v, t), max) == Answer(Unless(|v| <= max, InvalidLength), v, t)
  {
    hide LE, FromLE, ReadWord;
    WordSizes();
    forall v: seq<byte>, max: nat, t: seq<byte> | |v| < 0x1_0000
      ensures ReadBytes(Text16(v, t), max) == Answer(Unless(|v| <= max, InvalidLength), v, t)
    {
      CodecLaws.WordBack(|v|, 2, v + t);
      CodecLaws.TakeBack(v, t);
    }
  }

  lemma AsciiAnswer()
    ensures forall v: seq<byte>, max: nat, t: seq<byte> {:trigger ReadAscii(Text16(v, t), max)} ::
              |v| < 0x1_0000 ==> ReadAscii(Text16(v, t), max) == Answer(Text(v, 1, max), v, t)
  {
    hide Text16, ReadBytes, Visible;
    BytesAnswer();
    forall v: seq<byte>, max: nat, t: seq<byte> | |v| < 0x1_0000
      ensures ReadAscii(Text16(v, t), max) == Answer(Text(v, 1, max), v, t)
    {
      assert ReadBytes(Text16(v, t), max) == Answer(Unless(|v| <= max, InvalidLength), v, t);
      TextSame(v, max);
    }
  }

  lemma RowAnswer(row: TransferRow, t: seq<byte>)
    requires |RowThen(row, t)| <= 2048
    ensures ParseRow(RowThen(row, t)) == Answer(RowRead(row), row, t)
  {
    hide LE, Text16, ReadBytes, ReadU8, ReadU128, Row, ValidateRow, IdentityEncoding.FromCode, IdentityEncoding.Code;
    CodecLaws.RowSplit(row, t);
    RowSame(row);
    FirstFrom(RowReadChecks(row));
    CodecLaws.U8Back(); CodecLaws.U128Back(); BytesAnswer();
    var t1 := LE(row.rawAmount, 16) + ([row.decimals] + Text16(row.displayAsset, t));
    var t2 := [row.assetEncoding.Code()] + Text16(row.asset, t1);
    assert ReadBytes(Text16(row.recipient, t2), MAX_IDENTITY_BYTES)
           == Answer(Unless(|row.recipient| <= 192, InvalidLength), row.recipient, t2);
    assert ReadBytes(Text16(row.asset, t1), MAX_ASSET_BYTES)
           == Answer(Unless(|row.asset| <= 96, InvalidLength), row.asset, t1);
  }

  lemma {:induction false} RowsAnswer(rows: seq<TransferRow>, t: seq<byte>)
    requires |RowsThen(rows, t)| <= 2048
    ensures |rows| < 256 && |t| <= |RowsThen(rows, t)|
    ensures ParseRows(RowsThen(rows, t), |rows|) == Answer(RowsRead(rows), rows, t)
    ensures 25 * |rows| <= |RowsThen(rows, t)|
  {
    hide RowThen, ParseRow, RowRead;
    if rows != [] {
      CodecLaws.RowSplit(rows[0], RowsThen(rows[1..], t));
      RowAnswer(rows[0], RowsThen(rows[1..], t));
      RowsAnswer(rows[1..], t);
      assert [rows[0]] + rows[1..] == rows;
    }
  }

  lemma FiatAnswer(fiat: Option<FiatEstimate>, t: seq<byte>)
    requires |FiatThen(fiat, t)| <= 2048
    ensures ParseFiat(FiatThen(fiat, t)) == Answer(Estimate(fiat), fiat, t)
  {
    hide LE, Text16, ReadAscii, ReadU8, ReadI64, Text, ValidateFiat, AmountGood;
    CodecLaws.U8Back(); CodecLaws.I64Back(); AsciiAnswer();
    EstimateSame(fiat);
    if fiat.Some? {
      var f := fiat.value;
      FirstFrom(EstimateChecks(f));
      var t1 := Text16(f.currency, Text16(f.source, LE(Twos(f.observedAt), 8) + t));
      assert ReadAscii(Text16(f.amount, t1), 32) == Answer(Text(f.amount, 1, 32), f.amount, t1);
    }
  }

  lemma SendAnswer(body: Body, network: Network, t: seq<byte>)
    requires body.SendBody? && |BodyThen(body, t)| <= 2048
    ensures ParseSend(BodyThen(body, t), network) == Answer(First(ReadChecks(body, network)), body, t)
  {
    hide ParseRow, RowThen, RowRead, ReadArray32, ParseFiat, FiatThen, Estimate;
    FirstFrom(ReadChecks(body, network));
    CodecLaws.ArrayBack();
    CodecLaws.RowSplit(body.row, body.executionCommitment + FiatThen(body.fiat, t));
    RowAnswer(body.row, body.executionCommitment + FiatThen(body.fiat, t));
    FiatAnswer(body.fiat, t);
  }

  lemma BatchAnswer(body: Body, network: Network, t: seq<byte>)
    requires body.BatchBody? && |BodyThen(body, t)| <= 2048
    ensures ParseBatch(BodyThen(body, t), network) == Answer(First(ReadChecks(body, network)), body, t)
  {
    hide ParseRows, RowsThen, RowsRead, ReadU8;
    FirstFrom(ReadChecks(body, network));
    CodecLaws.U8Back();
    RowsAnswer(body.rows, t);
  }

  /** Keys are counted before they are read, each list in turn. */
  lemma SignersAnswer(body: Body, t: seq<byte>)
    requires body.GovernanceBody? && |body.proposers| < 256 && |body.approvers| < 256
    ensures ParseSigners(SignersThen(body.proposers, body.approvers, t), body.kind, body.targetIntentIndex,
                         body.approvalThreshold, body.cancellationThreshold, body.timelockSeconds)
            == Answer(Unless(1 <= |body.proposers| <= 16 && 1 <= |body.approvers| <= 16
                             && 1 <= body.approvalThreshold <= |body.approvers|
                             && 1 <= body.cancellationThreshold <= |body.approvers|, InvalidContext), body, t)
  {
    hide LE, ReadU8, ParseKeys, Flat;
    var t1 := Flat(body.approvers) + t;
    var t2 := [|body.approvers|] + t1;
    var t3 := Flat(body.proposers) + t2;
    assert ReadU8([|body.proposers|] + t3) == Ok((|body.proposers|, t3)) && ReadU8(t2) == Ok((|body.approvers|, t1)) by {
      CodecLaws.U8Back();
    }
    CodecLaws.KeysBack(body.proposers, t2);
    CodecLaws.KeysBack(body.approvers, t);
  }

  lemma GovernanceAnswer(body: Body, network: Network, t: seq<byte>)
    requires body.GovernanceBody? && IsGovernance(body.kind) && |BodyThen(body, t)| <= 2048
    ensures ParseGovernance(BodyThen(body, t), network, body.kind) == Answer(First(ReadChecks(body, network)), body, t)
  {
    hide LE, ReadU8, ReadU32, ParseSigners, SignersThen, IsGovernance, ActionKind.Code;
    FirstFrom(ReadChecks(body, network));
    KindIff(body.kind);
    SignersLength(body.proposers, body.approvers, t);
    SignersAnswer(body, t);
    CodecLaws.U8Back(); CodecLaws.U32Back();
  }

  lemma SignersLength(proposers: seq<Bytes32>, approvers: seq<Bytes32>, t: seq<byte>)
    ensures |SignersThen(proposers, approvers, t)| == 2 + 32 * |proposers| + 32 * |approvers| + |t|
  {
    hide Flat;
  }

  lemma PolicyAnswer(body: Body, network: Network, t: seq<byte>)
    requires body.PolicyBody?
    ensures ParsePolicy(BodyThen(body, t), network) == Answer(First(ReadChecks(body, network)), body, t)
  {
    hide ReadU8, ReadArray32;
    FirstFrom(ReadChecks(body, network));
    CodecLaws.U8Back(); CodecLaws.ArrayBack();
  }

  lemma AssetPolicyAnswer(body: Body, network: Network, t: seq<byte>)
    requires body.AssetPolicyBody? && |BodyThen(body, t)| <= 2048
    ensures ParseAssetPolicy(BodyThen(body, t), network) == Answer(First(ReadChecks(body, network)), body, t)
  {
    hide ReadU8, ReadArray32, ReadAscii, Text16, Text, IsZero, PresentOrNot, Network.ChainKind;
    FirstFrom(ReadChecks(body, network));
    PresentIff(body.mint);
    var t1 := Text16(body.displayAsset, body.newPolicyCommitment + t);
    assert ReadAscii(t1, 16) == Answer(Text(body.displayAsset, 1, 16), body.displayAsset, body.newPolicyCommitment + t)
      by { AsciiAnswer(); }
    CodecLaws.U8Back(); CodecLaws.ArrayBack();
  }

  lemma EscrowReleaseAnswer(body: Body, network: Network, t: seq<byte>)
    requires body.EscrowReleaseBody? && |BodyThen(body, t)| <= 2048
    ensures ParseEscrowRelease(BodyThen(body, t), network) == Answer(First(ReadChecks(body, network)), body, t)
  {
    hide ReadArray32, ReadAscii, Text16, Text, ParseRow, RowThen, RowRead;
    FirstFrom(ReadChecks(body, network));
    CodecLaws.ArrayBack(); AsciiAnswer();
    CodecLaws.RowSplit(body.payment, body.executionCommitment + t);
    RowAnswer(body.payment, body.executionCommitment + t);
  }

  lemma EscrowReturnAnswer(body: Body, network: Network, t: seq<byte>)
    requires body.EscrowReturnBody? && |BodyThen(body, t)| <= 2048
    ensures ParseEscrowReturn(BodyThen(body, t), network) == Answer(First(ReadChecks(body, network)), body, t)
  {
    hide ReadU8, ReadArray32, ReadAscii, Text16, Text, ParseRows, RowsThen, RowsRead;
    FirstFrom(ReadChecks(body, network));
    CodecLaws.U8Back(); CodecLaws.ArrayBack(); AsciiAnswer();
    RowsAnswer(body.rows, body.executionCommitment + t);
  }

  lemma TradeLimitsAnswer(body: Body, t: seq<byte>)
    requires body.AgentTradeBody? && |BodyThen(body, t)| <= 2048
    ensures ParseTradeLimits(LE(body.maxNotionalRaw, 16) + (LE(body.maxLeverageX100, 4)
                             + Text16(body.sessionId, Text16(body.route, body.riskCheckHash + t))),
                             body.agentId, body.venue, body.market, body.side, body.assetId)
            == Answer(First(TradeChecks(body)), body, t)
  {
    hide LE, ReadU32, ReadU128, ReadArray32, ReadAscii, Text16, Text, Ascii;
    FirstFrom(TradeChecks(body));
    Sides();
    CodecLaws.U32Back(); CodecLaws.U128Back(); CodecLaws.ArrayBack(); AsciiAnswer();
  }

  /** The last three checks of a trade approval. */
  function TradeChecks(body: Body): seq<Fault>
    requires body.AgentTradeBody?
  {
    [Text(body.sessionId, 1, 96), Text(body.route, 1, 96), Trade(body.side, body.maxNotionalRaw, body.maxLeverageX100)]
  }

  lemma AgentTradeAnswer(body: Body, network: Network, t: seq<byte>)
    requires body.AgentTradeBody? && |BodyThen(body, t)| <= 2048
    ensures ParseAgentTrade(BodyThen(body, t), network) == Answer(First(ReadChecks(body, network)), body, t)
  {
    hide LE, ReadAscii, Text16, Text, Trade, ParseTradeLimits, TradeChecks, First;
    FirstFrom(ReadChecks(body, network));
    TradeLimitsAnswer(body, t);
    assert ReadChecks(body, network)[5..] == TradeChecks(body) by { LastChecks(body, network); }
    AsciiAnswer();
  }

  lemma LastChecks(body: Body, network: Network)
    requires body.AgentTradeBody?
    ensures ReadChecks(body, network)[5..] == TradeChecks(body)
  {
    hide Text, Trade;
  }

  lemma SessionLimitsAnswer(body: Body, t: seq<byte>)
    requires body.AgentSessionBody?
    ensures ParseSessionLimits(LE(body.maxNotionalRaw, 16) + (LE(body.maxLeverageX100, 4)
                               + (LE(Twos(body.sessionExpiresAt), 8) + ([body.status] + t))),
                               body.sessionId, body.agentId, body.venue, body.market)
            == Answer(Unless(body.maxNotionalRaw >= 1 && body.maxLeverageX100 >= 1
                             && (body.status == 1 || body.status == 2), InvalidContext), body, t)
  {
    hide LE, ReadU8, ReadU32, ReadI64, ReadU128;
    CodecLaws.U8Back(); CodecLaws.U32Back(); CodecLaws.I64Back(); CodecLaws.U128Back();
  }

  lemma AgentSessionAnswer(body: Body, network: Network, t: seq<byte>)
    requires body.AgentSessionBody? && |BodyThen(body, t)| <= 2048
    ensures ParseAgentSession(BodyThen(body, t), network) == Answer(First(ReadChecks(body, network)), body, t)
  {
    hide LE, ReadAscii, Text16, Text, ParseSessionLimits, First;
    FirstFrom(ReadChecks(body, network));
    SessionLimitsAnswer(body, t);
    AsciiAnswer();
  }

  lemma AgentRiskAnswer(body: Body, network: Network, t: seq<byte>)
    requires body.AgentRiskBody? && |BodyThen(body, t)| <= 2048
    ensures ParseAgentRisk(BodyThen(body, t), network) == Answer(First(ReadChecks(body, network)), body, t)
  {
    hide LE, ReadU8, ReadU128, ReadArray32, ReadAscii, Text16, Text;
    FirstFrom(ReadChecks(body, network));
    CodecLaws.U8Back(); CodecLaws.U128Back(); CodecLaws.ArrayBack(); AsciiAnswer();
  }

  lemma AgentSettlementAnswer(body: Body, network: Network, t: seq<byte>)
    requires body.AgentSettlementBody? && |BodyThen(body, t)| <= 2048
    ensures ParseAgentSettlement(BodyThen(body, t), network) == Answer(First(ReadChecks(body, network)), body, t)
  {
    hide LE, ReadU8, ReadU64, ReadU128, ReadArray32, ReadAscii, Text16, Text;
    FirstFrom(ReadChecks(body, network));
    CodecLaws.U8Back(); CodecLaws.U64Back(); CodecLaws.U128Back(); CodecLaws.ArrayBack(); AsciiAnswer();
  }

  lemma TermsAnswer(body: Body, t: seq<byte>)
    requires body.RecurringBody?
    ensures ParseTerms(LE(body.intervalSeconds, 4) + (LE(Twos(body.firstExecutionAt), 8)
                       + (LE(body.paymentCount, 4) + ([body.status] + t))),
                       body.scheduleId, body.payment, body.executionCommitment)
            == Answer(Unless(body.intervalSeconds >= 3600 && 1 <= body.paymentCount <= 1000
                             && (body.status == 1 || body.status == 2), InvalidContext), body, t)
  {
    hide LE, ReadU8, ReadU32, ReadI64;
    CodecLaws.U8Back(); CodecLaws.U32Back(); CodecLaws.I64Back();
  }

  lemma CommitmentAnswer(commitment: Bytes32, present: bool, t: seq<byte>)
    requires !present ==> IsZero(commitment)
    ensures ParseCommitment((if present then commitment else []) + t, present)
            == Answer(Unless(present ==> PresentOrNot(commitment, true), InvalidContext), commitment, t)
  {
    hide ReadArray32;
    PresentIff(commitment);
    CodecLaws.ArrayBack();
    Nothing(t);
  }

  lemma RecurringAnswer(body: Body, network: Network, t: seq<byte>)
    requires body.RecurringBody? && |BodyThen(body, t)| <= 2048
    requires !Token(body.payment) ==> IsZero(body.executionCommitment)
    ensures ParseRecurring(BodyThen(body, t), network) == Answer(First(ReadChecks(body, network)), body, t)
  {
    hide LE, ReadAscii, Text16, Text, ParseRow, RowThen, RowRead, ParseCommitment, ParseTerms,
      Ascii, PresentOrNot, IsZero;
    FirstFrom(ReadChecks(body, network));
    Sides();
    AsciiAnswer();
    var spl := SplToken(body.payment);
    var t1 := LE(body.intervalSeconds, 4) + (LE(Twos(body.firstExecutionAt), 8)
              + (LE(body.paymentCount, 4) + ([body.status] + t)));
    var t2 := (if spl then body.executionCommitment else []) + t1;
    CodecLaws.RowSplit(body.payment, t2);
    RowAnswer(body.payment, t2);
    CommitmentAnswer(body.executionCommitment, spl, t1);
    TermsAnswer(body, t);
  }

  /** Shapes that the format can lay out: members change by a membership action, and a schedule that pays no token has
      no commitment. */
  predicate Shaped(body: Body) {
    && (body.GovernanceBody? ==> IsGovernance(body.kind))
    && (body.RecurringBody? && !Token(body.payment) ==> IsZero(body.executionCommitment))
  }

  lemma BodyAnswer(body: Body, network: Network, t: seq<byte>)
    requires Shaped(body) && |BodyThen(body, t)| <= 2048
    ensures ParseBody(BodyThen(body, t), body.Kind(), network) == Answer(First(ReadChecks(body, network)), body, t)
  {
    hide BodyThen, ReadChecks, First, ParseSend, ParseBatch, ParseGovernance, ParsePolicy, ParseAssetPolicy,
      ParseEscrowRelease, ParseEscrowReturn, ParseAgentTrade, ParseAgentSession, ParseAgentRisk, ParseAgentSettlement,
      ParseRecurring, Parsed, IsZero, Token;
    match body {
      case SendBody(_, _, _) => SendAnswer(body, network, t);
      case BatchBody(_) => BatchAnswer(body, network, t);
      case GovernanceBody(_, _, _, _, _, _, _) => GovernanceAnswer(body, network, t);
      case PolicyBody(_, _) => PolicyAnswer(body, network, t);
      case AssetPolicyBody(_, _, _, _, _, _) => AssetPolicyAnswer(body, network, t);
      case EscrowReleaseBody(_, _, _, _, _, _) => EscrowReleaseAnswer(body, network, t);
      case EscrowReturnBody(_, _, _, _) => EscrowReturnAnswer(body, network, t);
      case AgentTradeBody(_, _, _, _, _, _, _, _, _, _) => AgentTradeAnswer(body, network, t);
      case AgentSessionBody(_, _, _, _, _, _, _, _) => AgentSessionAnswer(body, network, t);
      case AgentRiskBody(_, _, _, _) => AgentRiskAnswer(body, network, t);
      case AgentSettlementBody(_, _, _, _, _, _, _, _) => AgentSettlementAnswer(body, network, t);
      case RecurringBody(_, _, _, _, _, _, _) => RecurringAnswer(body, network, t);
    }
  }

  lemma CommonAnswer(c: CommonFields, kind: ActionKind, t: seq<byte>)
    ensures ParseCommon(CommonThen(c, kind, t))
            == Answer(Unless(1 <= c.approvalRequired <= 16, InvalidContext), (c, kind), t)
  {
    hide LE, ReadU8, ReadU64, ReadI64, ReadArray32, ParseHeader, HeaderThen;
    CodecLaws.HeaderBack(c.profile, kind, c.network,
      LE(c.proposalIndex, 8) + (c.walletId + (c.actor + (c.actionId + (c.nonce
      + (LE(Twos(c.expiresAt), 8) + (c.policyCommitment + ([c.approvalRequired] + t))))))));
    CodecLaws.U8Back(); CodecLaws.U64Back(); CodecLaws.I64Back(); CodecLaws.ArrayBack();
  }

  /** What the parser answers for the layout of any request at all: it is too long, or the first check that fails, or
      the request. */
  lemma ParseAnswer(q: Request)
    requires Shaped(q.body)
    ensures Parse(Serialize(q)) ==
      if |Serialize(q)| > 2048 then Err(InvalidLength)
      else if First(ParseChecks(q)).Some? then Err(First(ParseChecks(q)).value)
      else Ok(q)
  {
    hide CommonThen, BodyThen, Text16, ParseCommon, ParseBody, ReadBytes, Text, ValidateVisibleAscii,
      ReadChecks, Shaped;
    var t1 := Text16(q.reason, []);
    var t2 := BodyThen(q.body, t1);
    CodecLaws.CommonLength(q.common, q.body.Kind(), t2);
    if |Serialize(q)| <= 2048 {
      CodecLaws.BodySplit(q.body, t1);
      FirstFrom(ParseChecks(q));
      CommonAnswer(q.common, q.body.Kind(), t2);
      BodyAnswer(q.body, q.common.network, t1);
      BytesAnswer();
      TextSame(q.reason, 160);
      LongReason(q.reason);
    }
  }

  lemma LongReason(s: seq<byte>)
    ensures |s| > 160 ==> Text(s, 0, 160) == Some(InvalidLength)
  {
  }

  /** Codes that stand for nothing are refused as they are read: an encoding of a row, the tag of an estimate, and the
      two actions that have no form. */
  lemma UnknownCodes(c: byte, encoding: IdentityEncoding, recipient: seq<byte>, network: Network, t: seq<byte>)
    requires |recipient| <= 192
    ensures !(1 <= c <= 3) ==> ParseRow([c] + t) == Err(InvalidEncoding)
    ensures !(1 <= c <= 3) ==> ParseRow([encoding.Code()] + Text16(recipient, [c] + t)) == Err(InvalidEncoding)
    ensures c > 1 ==> ParseFiat([c] + t) == Err(InvalidEncoding)
    ensures ParseBody(t, RecoveryAction, network) == Err(UnsupportedAction) == ParseBody(t, SwapIntent, network)
  {
    hide ReadU8, ReadBytes, Text16, ReadAscii, ReadI64, ReadU128, ValidateRow, ValidateFiat;
    CodecLaws.U8Back(); BytesAnswer();
    assert ReadBytes(Text16(recipient, [c] + t), MAX_IDENTITY_BYTES)
           == Answer(Unless(|recipient| <= 192, InvalidLength), recipient, [c] + t);
  }
}

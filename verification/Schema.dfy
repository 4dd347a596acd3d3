/** The wire format as a table of fields, in the order of the schema's documentation. The layouts that
    encoders and the parser follow are proved to spell it byte for byte. */
module Schema {
  import opened Base
  import opened Model
  import opened Wire
  import opened Payload
  import CodecLaws

  /** Numbers say their width in bytes; texts and parts go behind their length. */
  datatype Field =
    | Byte(value: byte)
    | Number(n: nat, width: nat)
    | Raw(bytes: seq<byte>)
    | Sized(text: seq<byte>)
    | Part(part: seq<byte>)

  /** Byte `i` of a number has weight `256^i`. */
  function Places(n: nat, width: nat): seq<byte> {
    seq(width, i requires 0 <= i < width => PowPositive(256, i); n / Pow(256, i) % 256)
  }

  function Spelled(f: Field): seq<byte> {
    match f
    case Byte(value) => [value]
    case Number(n, width) => Places(n, width)
    case Raw(bytes) => bytes
    case Sized(text) => Places(|text|, 2) + text
    case Part(part) => Places(|part|, 4) + part
  }

  function SpellFrom(fs: seq<Field>, i: nat, t: seq<byte>): seq<byte>
    requires i <= |fs|
    decreases |fs| - i
  {
    if i == |fs| then t else Spelled(fs[i]) + SpellFrom(fs, i + 1, t)
  }

  /** The bytes of a table, one field after another. */
  function Spell(fs: seq<Field>): seq<byte> { SpellFrom(fs, 0, []) }

  function Signed(v: i64): Field { Number(if v < 0 then v + 0x1_0000_0000_0000_0000 else v, 8) }

  // ----- The wire format -----

  function RowFields(r: TransferRow): seq<Field> {
    [Byte(r.recipientEncoding.Code()), Sized(r.recipient), Byte(r.assetEncoding.Code()), Sized(r.asset),
     Number(r.rawAmount, 16), Byte(r.decimals), Sized(r.displayAsset)]
  }

  function RowsFields(rows: seq<TransferRow>): seq<Field> {
    if rows == [] then [] else RowFields(rows[0]) + RowsFields(rows[1..])
  }

  function KeyFields(keys: seq<Bytes32>): (r: seq<Field>)
    ensures |r| == |keys|
  {
    if keys == [] then [] else [Raw(keys[0])] + KeyFields(keys[1..])
  }

  /** No estimate, or its flag and fields. */
  function EstimateFields(fiat: Option<FiatEstimate>): seq<Field> {
    if fiat.None? then [Byte(0)] else
    [Byte(1), Sized(fiat.value.amount), Sized(fiat.value.currency), Sized(fiat.value.source), Signed(fiat.value.observedAt)]
  }

  function HeadFields(q: Request): seq<Field> {
    var c := q.common;
    [Raw(Ascii("CSIGINT4")), Byte(4), Byte(c.profile.Code()), Byte(q.body.Kind().Code()), Byte(c.network.Code()),
     Number(c.proposalIndex, 8), Raw(c.walletId), Raw(c.actor), Raw(c.actionId), Raw(c.nonce), Signed(c.expiresAt),
     Raw(c.policyCommitment), Byte(c.approvalRequired)]
  }

  function BodyFields(body: Body): seq<Field> {
    match body
    case SendBody(row, commitment, fiat) => RowFields(row) + [Raw(commitment)] + EstimateFields(fiat)
    case BatchBody(rows) => [Byte(|rows| % 256)] + RowsFields(rows)
    case GovernanceBody(_, target, approval, cancellation, timelock, proposers, approvers) =>
      [Byte(target), Byte(approval), Byte(cancellation), Number(timelock, 4), Byte(|proposers| % 256)]
      + KeyFields(proposers) + [Byte(|approvers| % 256)] + KeyFields(approvers)
    case PolicyBody(chainKind, commitment) => [Byte(chainKind), Raw(commitment)]
    case AssetPolicyBody(chainKind, scopeKind, decimals, mint, displayAsset, commitment) =>
      [Byte(chainKind), Byte(scopeKind), Byte(decimals), Raw(mint), Sized(displayAsset), Raw(commitment)]
    case EscrowReleaseBody(escrowId, escrowTitle, milestoneId, milestoneTitle, payment, commitment) =>
      [Sized(escrowId), Sized(escrowTitle), Sized(milestoneId), Sized(milestoneTitle)] + RowFields(payment) + [Raw(commitment)]
    case EscrowReturnBody(escrowId, escrowTitle, rows, commitment) =>
      [Sized(escrowId), Sized(escrowTitle), Byte(|rows| % 256)] + RowsFields(rows) + [Raw(commitment)]
    case AgentTradeBody(agentId, venue, market, side, assetId, notional, leverage, sessionId, route, risk) =>
      [Sized(agentId), Sized(venue), Sized(market), Sized(side), Sized(assetId), Number(notional, 16), Number(leverage, 4),
       Sized(sessionId), Sized(route), Raw(risk)]
    case AgentSessionBody(sessionId, agentId, venue, market, notional, leverage, expiry, status) =>
      [Sized(sessionId), Sized(agentId), Sized(venue), Sized(market), Number(notional, 16), Number(leverage, 4),
       Signed(expiry), Byte(status)]
    case AgentRiskBody(sessionId, oracle, maxLoss, status) =>
      [Sized(sessionId), Raw(oracle), Number(maxLoss, 16), Byte(status)]
    case AgentSettlementBody(sessionId, executionId, artifact, oracle, closed, outcome, pnl, sequence) =>
      [Sized(sessionId), Sized(executionId), Raw(artifact), Raw(oracle), Number(closed, 16), Byte(outcome),
       Number(pnl, 16), Number(sequence, 8)]
    case RecurringBody(scheduleId, payment, commitment, interval, first, count, status) =>
      [Sized(scheduleId)] + RowFields(payment) + (if SplToken(payment) then [Raw(commitment)] else [])
      + [Number(interval, 4), Signed(first), Number(count, 4), Byte(status)]
  }

  function RequestFields(q: Request): seq<Field> {
    HeadFields(q) + BodyFields(q.body) + [Sized(q.reason)]
  }

  // ----- Spelling tables -----

  lemma LEIsPlaces(n: nat, width: nat)
    ensures LE(n, width) == Places(n, width)
  {
    forall i | 0 <= i < width ensures LE(n, width)[i] == Places(n, width)[i] {
      LEAt(n, width, i);
    }
  }

  /** Four fields at once. */
  lemma Peel(fs: seq<Field>, i: nat, t: seq<byte>)
    requires i <= |fs|
    ensures i == |fs| ==> SpellFrom(fs, i, t) == t
    ensures i < |fs| ==> SpellFrom(fs, i, t) == Spelled(fs[i]) + SpellFrom(fs, i + 1, t)
    ensures i + 1 < |fs| ==> SpellFrom(fs, i + 1, t) == Spelled(fs[i + 1]) + SpellFrom(fs, i + 2, t)
    ensures i + 2 < |fs| ==> SpellFrom(fs, i + 2, t) == Spelled(fs[i + 2]) + SpellFrom(fs, i + 3, t)
    ensures i + 3 < |fs| ==> SpellFrom(fs, i + 3, t) == Spelled(fs[i + 3]) + SpellFrom(fs, i + 4, t)
    ensures i < |fs| <= i + 4 ==> SpellFrom(fs, |fs|, t) == t
  {
    hide Spelled;
  }

  lemma {:induction false} SpellPlus(fs: seq<Field>, gs: seq<Field>, i: nat, t: seq<byte>)
    requires i <= |fs|
    ensures SpellFrom(fs + gs, i, t) == SpellFrom(fs, i, SpellFrom(gs, 0, t))
    decreases |fs| - i
  {
    hide Spelled;
    if i == |fs| {
      SpellShift(fs, gs, 0, t);
    } else {
      SpellPlus(fs, gs, i + 1, t);
    }
  }

  lemma {:induction false} SpellShift(fs: seq<Field>, gs: seq<Field>, j: nat, t: seq<byte>)
    requires j <= |gs|
    ensures SpellFrom(fs + gs, |fs| + j, t) == SpellFrom(gs, j, t)
    decreases |gs| - j
  {
    hide Spelled;
    if j < |gs| {
      SpellShift(fs, gs, j + 1, t);
    }
  }

  lemma SizedThen(v: seq<byte>, t: seq<byte>)
    ensures Spelled(Sized(v)) + t == Text16(v, t)
  {
    hide LE, Places;
    LEIsPlaces(|v|, 2);
    Assoc(LE(|v|, 2), v, t);
  }

  lemma PartThen(v: seq<byte>, t: seq<byte>)
    requires |v| < 0x1_0000_0000
    ensures Spelled(Part(v)) + t == Prefixed(v, t)
  {
    hide LE, Places;
    LEIsPlaces(|v|, 4);
    Assoc(LE(|v|, 4), v, t);
  }

  lemma NumberIs(n: nat, width: nat)
    ensures Spelled(Number(n, width)) == LE(n, width)
  {
    LEIsPlaces(n, width);
  }

  lemma SignedIs(v: i64)
    ensures Spelled(Signed(v)) == LE(Twos(v), 8)
  {
    LEIsPlaces(Twos(v), 8);
  }

  /** How each kind of field starts a layout. */
  lemma FieldsThen()
    ensures forall b: byte {:trigger Byte(b)} :: Spelled(Byte(b)) == [b]
    ensures forall s {:trigger Raw(s)} :: Spelled(Raw(s)) == s
    ensures forall n: nat, w: nat {:trigger Number(n, w)} :: Spelled(Number(n, w)) == LE(n, w)
    ensures forall v: i64 {:trigger Signed(v)} :: Spelled(Signed(v)) == LE(Twos(v), 8)
    ensures forall v, t {:trigger Spelled(Sized(v)) + t} :: Spelled(Sized(v)) + t == Text16(v, t)
    ensures forall v, t {:trigger Spelled(Part(v)) + t} :: |v| < 0x1_0000_0000 ==> Spelled(Part(v)) + t == Prefixed(v, t)
  {
    hide LE, Places, Text16, Prefixed;
    forall n: nat, w: nat ensures Spelled(Number(n, w)) == LE(n, w) { NumberIs(n, w); }
    forall v: i64 ensures Spelled(Signed(v)) == LE(Twos(v), 8) { SignedIs(v); }
    forall v, t ensures Spelled(Sized(v)) + t == Text16(v, t) { SizedThen(v, t); }
    forall v, t | |v| < 0x1_0000_0000 ensures Spelled(Part(v)) + t == Prefixed(v, t) { PartThen(v, t); }
  }

  lemma RowSpelled(r: TransferRow, t: seq<byte>)
    ensures SpellFrom(RowFields(r), 0, t) == RowThen(r, t)
  {
    hide LE, Spelled, SpellFrom, Text16, IdentityEncoding.Code;
    FieldsThen();
    Peel(RowFields(r), 0, t);
    Peel(RowFields(r), 4, t);
  }

  lemma {:induction false} RowsSpelled(rows: seq<TransferRow>, t: seq<byte>)
    ensures SpellFrom(RowsFields(rows), 0, t) == RowsThen(rows, t)
  {
    hide RowFields, RowThen;
    if rows != [] {
      SpellPlus(RowFields(rows[0]), RowsFields(rows[1..]), 0, t);
      RowsSpelled(rows[1..], t);
      RowSpelled(rows[0], RowsThen(rows[1..], t));
    }
  }

  lemma {:induction false} KeysSpelled(keys: seq<Bytes32>, t: seq<byte>)
    ensures SpellFrom(KeyFields(keys), 0, t) == Flat(keys) + t
  {
    if keys == [] {
      Nothing(t);
    } else {
      SpellPlus([Raw(keys[0])], KeyFields(keys[1..]), 0, t);
      KeysSpelled(keys[1..], t);
      Peel([Raw(keys[0])], 0, Flat(keys[1..]) + t);
      Assoc(keys[0], Flat(keys[1..]), t);
    }
  }

  lemma EstimateSpelled(fiat: Option<FiatEstimate>, t: seq<byte>)
    ensures SpellFrom(EstimateFields(fiat), 0, t) == FiatThen(fiat, t)
  {
    hide LE, Spelled, SpellFrom, Text16;
    FieldsThen();
    Peel(EstimateFields(fiat), 0, t);
    if fiat.Some? {
      Peel(EstimateFields(fiat), 4, t);
    }
  }

  lemma HeadSpelled(q: Request, t: seq<byte>)
    ensures SpellFrom(HeadFields(q), 0, t) == CommonThen(q.common, q.body.Kind(), t)
  {
    hide LE, Spelled, SpellFrom, Ascii, Body.Kind, ActionKind.Code, Network.Code, DeviceProfile.Code;
    FieldsThen();
    var fs := HeadFields(q);
    Peel(fs, 0, t);
    Peel(fs, 4, t);
    Peel(fs, 8, t);
    Peel(fs, 12, t);
  }

  lemma PaymentSpelled(body: Body, t: seq<byte>)
    requires body.SendBody? || body.EscrowReleaseBody? || body.EscrowReturnBody?
    ensures SpellFrom(BodyFields(body), 0, t) == BodyThen(body, t)
  {
    hide LE, Spelled, SpellFrom, Text16, RowFields, RowsFields, EstimateFields, RowThen, RowsThen, FiatThen;
    FieldsThen();
    match body {
      case SendBody(row, commitment, fiat) =>
        SpellPlus(RowFields(row) + [Raw(commitment)], EstimateFields(fiat), 0, t);
        EstimateSpelled(fiat, t);
        SpellPlus(RowFields(row), [Raw(commitment)], 0, FiatThen(fiat, t));
        Peel([Raw(commitment)], 0, FiatThen(fiat, t));
        RowSpelled(row, commitment + FiatThen(fiat, t));
      case EscrowReleaseBody(escrowId, escrowTitle, milestoneId, milestoneTitle, payment, commitment) =>
        var texts := [Sized(escrowId), Sized(escrowTitle), Sized(milestoneId), Sized(milestoneTitle)];
        SpellPlus(texts + RowFields(payment), [Raw(commitment)], 0, t);
        Peel([Raw(commitment)], 0, t);
        SpellPlus(texts, RowFields(payment), 0, commitment + t);
        RowSpelled(payment, commitment + t);
        Peel(texts, 0, RowThen(payment, commitment + t));
      case EscrowReturnBody(escrowId, escrowTitle, rows, commitment) =>
        var head := [Sized(escrowId), Sized(escrowTitle), Byte(|rows| % 256)];
        SpellPlus(head + RowsFields(rows), [Raw(commitment)], 0, t);
        Peel([Raw(commitment)], 0, t);
        SpellPlus(head, RowsFields(rows), 0, commitment + t);
        RowsSpelled(rows, commitment + t);
        Peel(head, 0, RowsThen(rows, commitment + t));
    }
  }

  lemma ListSpelled(body: Body, t: seq<byte>)
    requires body.BatchBody? || body.GovernanceBody? || body.RecurringBody?
    ensures SpellFrom(BodyFields(body), 0, t) == BodyThen(body, t)
  {
    hide LE, Spelled, SpellFrom, Text16, RowFields, RowsFields, KeyFields, RowThen, RowsThen, Flat, SplToken;
    FieldsThen();
    match body {
      case BatchBody(rows) =>
        SpellPlus([Byte(|rows| % 256)], RowsFields(rows), 0, t);
        RowsSpelled(rows, t);
        Peel([Byte(|rows| % 256)], 0, RowsThen(rows, t));
      case GovernanceBody(_, target, approval, cancellation, timelock, proposers, approvers) =>
        var head := [Byte(target), Byte(approval), Byte(cancellation), Number(timelock, 4), Byte(|proposers| % 256)];
        var count := [Byte(|approvers| % 256)];
        SpellPlus(head + KeyFields(proposers) + count, KeyFields(approvers), 0, t);
        KeysSpelled(approvers, t);
        SpellPlus(head + KeyFields(proposers), count, 0, Flat(approvers) + t);
        Peel(count, 0, Flat(approvers) + t);
        var t1 := [|approvers| % 256] + (Flat(approvers) + t);
        SpellPlus(head, KeyFields(proposers), 0, t1);
        KeysSpelled(proposers, t1);
        Peel(head, 0, Flat(proposers) + t1);
        Peel(head, 4, Flat(proposers) + t1);
      case RecurringBody(scheduleId, payment, commitment, interval, first, count, status) =>
        var terms := [Number(interval, 4), Signed(first), Number(count, 4), Byte(status)];
        var optional := if SplToken(payment) then [Raw(commitment)] else [];
        SpellPlus([Sized(scheduleId)] + RowFields(payment) + optional, terms, 0, t);
        Peel(terms, 0, t);
        var t2 := SpellFrom(terms, 0, t);
        SpellPlus([Sized(scheduleId)] + RowFields(payment), optional, 0, t2);
        Peel(optional, 0, t2);
        Nothing(t2);
        var t1 := SpellFrom(optional, 0, t2);
        SpellPlus([Sized(scheduleId)], RowFields(payment), 0, t1);
        RowSpelled(payment, t1);
        Peel([Sized(scheduleId)], 0, RowThen(payment, t1));
    }
  }

  lemma PolicySpelled(body: Body, t: seq<byte>)
    requires body.PolicyBody? || body.AssetPolicyBody? || body.AgentRiskBody?
    ensures SpellFrom(BodyFields(body), 0, t) == BodyThen(body, t)
  {
    hide LE, Spelled, SpellFrom, Text16;
    FieldsThen();
    Peel(BodyFields(body), 0, t);
    if body.AssetPolicyBody? {
      Peel(BodyFields(body), 4, t);
    }
  }

  lemma TradeSpelled(body: Body, t: seq<byte>)
    requires body.AgentTradeBody?
    ensures SpellFrom(BodyFields(body), 0, t) == BodyThen(body, t)
  {
    hide LE, Spelled, SpellFrom, Text16;
    FieldsThen();
    var fs := BodyFields(body);
    Peel(fs, 0, t);
    Peel(fs, 4, t);
    Peel(fs, 8, t);
  }

  lemma SessionSpelled(body: Body, t: seq<byte>)
    requires body.AgentSessionBody? || body.AgentSettlementBody?
    ensures SpellFrom(BodyFields(body), 0, t) == BodyThen(body, t)
  {
    hide LE, Spelled, SpellFrom, Text16;
    FieldsThen();
    var fs := BodyFields(body);
    Peel(fs, 0, t);
    Peel(fs, 4, t);
  }

  lemma BodySpelled(body: Body, t: seq<byte>)
    ensures SpellFrom(BodyFields(body), 0, t) == BodyThen(body, t)
  {
    hide BodyFields, BodyThen, SpellFrom;
    match body {
      case SendBody(_, _, _) => PaymentSpelled(body, t);
      case EscrowReleaseBody(_, _, _, _, _, _) => PaymentSpelled(body, t);
      case EscrowReturnBody(_, _, _, _) => PaymentSpelled(body, t);
      case BatchBody(_) => ListSpelled(body, t);
      case GovernanceBody(_, _, _, _, _, _, _) => ListSpelled(body, t);
      case RecurringBody(_, _, _, _, _, _, _) => ListSpelled(body, t);
      case PolicyBody(_, _) => PolicySpelled(body, t);
      case AssetPolicyBody(_, _, _, _, _, _) => PolicySpelled(body, t);
      case AgentRiskBody(_, _, _, _) => PolicySpelled(body, t);
      case AgentTradeBody(_, _, _, _, _, _, _, _, _, _) => TradeSpelled(body, t);
      case _ => SessionSpelled(body, t);
    }
  }

  /** Every encoded request, of any kind, is the spelling of its field table. */
  lemma SerializedAsTable(q: Request)
    ensures Serialize(q) == Spell(RequestFields(q))
  {
    hide HeadFields, BodyFields, CommonThen, BodyThen, Text16, SpellFrom, Spelled;
    FieldsThen();
    var reason := [Sized(q.reason)];
    SpellPlus(HeadFields(q) + BodyFields(q.body), reason, 0, []);
    Peel(reason, 0, []);
    SpellPlus(HeadFields(q), BodyFields(q.body), 0, Text16(q.reason, []));
    BodySpelled(q.body, Text16(q.reason, []));
    HeadSpelled(q, BodyThen(q.body, Text16(q.reason, [])));
  }

  // ----- Where fields are -----

  /** A piece of a layout, and the layout with it moved to the front. */
  lemma Piece(a: seq<byte>, s: seq<byte>, t: seq<byte>)
    ensures var b := a + (s + t);
      b == a + s + t && |b| >= |a| + |s| && b[|a|..|a| + |s|] == s
  {
  }

  lemma HeaderPiece(profile: DeviceProfile, kind: ActionKind, network: Network, t: seq<byte>)
    ensures var b := HeaderThen(profile, kind, network, t);
      && |b| == 12 + |t| && b == b[..12] + t && b[..8] == Ascii("CSIGINT4") && b[8] == 4
      && b[9] == profile.Code() && b[10] == kind.Code() && b[11] == network.Code()
  {
    hide Ascii, ActionKind.Code, Network.Code, DeviceProfile.Code;
  }

  /** Byte `at + i` is the digit of weight `256^i`. */
  ghost predicate NumberAt(b: seq<byte>, at: nat, n: nat, width: nat)
    requires at + width <= |b|
  {
    forall i :: 0 <= i < width ==> Pow(256, i) > 0 && b[at + i] == n / Pow(256, i) % 256
  }

  lemma NumberPiece(b: seq<byte>, at: nat, n: nat, width: nat)
    requires at + width <= |b| && b[at..at + width] == LE(n, width)
    ensures NumberAt(b, at, n, width)
  {
    hide LE, Pow;
    forall i | 0 <= i < width
      ensures Pow(256, i) > 0 && b[at + i] == n / Pow(256, i) % 256
    {
      LEAt(n, width, i);
      assert b[at + i] == b[at..at + width][i];
    }
  }

  /** The fixed fields of a request, by position. */
  ghost predicate FixedAt(b: seq<byte>, q: Request) {
    var c := q.common;
    && |b| >= 189 && b[..8] == Ascii("CSIGINT4") && b[8] == 4
    && b[9] == c.profile.Code() && b[10] == q.body.Kind().Code() && b[11] == c.network.Code()
    && NumberAt(b, 12, c.proposalIndex, 8)
    && b[20..52] == c.walletId && b[52..84] == c.actor && b[84..116] == c.actionId && b[116..148] == c.nonce
    && NumberAt(b, 148, if c.expiresAt < 0 then c.expiresAt + 0x1_0000_0000_0000_0000 else c.expiresAt, 8)
    && b[156..188] == c.policyCommitment && b[188] == c.approvalRequired
  }

  /** A text behind two bytes of length. */
  ghost predicate TextAt(b: seq<byte>, at: nat, v: seq<byte>) {
    at + 2 + |v| <= |b| && NumberAt(b, at, |v|, 2) && b[at + 2..at + 2 + |v|] == v
  }

  /** A transfer row at a position, its amount in 16 bytes. */
  ghost predicate RowAt(b: seq<byte>, at: nat, r: TransferRow) {
    var asset := at + 3 + |r.recipient|;
    var amount := asset + 3 + |r.asset|;
    && amount + 19 + |r.displayAsset| <= |b|
    && b[at] == r.recipientEncoding.Code() && TextAt(b, at + 1, r.recipient)
    && b[asset] == r.assetEncoding.Code() && TextAt(b, asset + 1, r.asset)
    && NumberAt(b, amount, r.rawAmount, 16) && b[amount + 16] == r.decimals && TextAt(b, amount + 17, r.displayAsset)
  }

  lemma FixedOffsets(q: Request)
    ensures FixedAt(Serialize(q), q)
  {
    hide LE, BodyThen, Text16, Ascii, Body.Kind, ActionKind.Code, Network.Code, DeviceProfile.Code, HeaderThen, NumberAt;
    var c, b := q.common, Serialize(q);
    var index, expires := LE(c.proposalIndex, 8), LE(Twos(c.expiresAt), 8);
    var r8 := [c.approvalRequired] + BodyThen(q.body, Text16(q.reason, []));
    var r7 := c.policyCommitment + r8;
    var r6 := expires + r7;
    var r5 := c.nonce + r6;
    var r4 := c.actionId + r5;
    var r3 := c.actor + r4;
    var r2 := c.walletId + r3;
    HeaderPiece(c.profile, q.body.Kind(), c.network, index + r2);
    var head := b[..12];
    Piece(head, index, r2);
    Piece(head + index, c.walletId, r3);
    Piece(head + index + c.walletId, c.actor, r4);
    var ids := head + index + c.walletId + c.actor;
    Piece(ids, c.actionId, r5);
    Piece(ids + c.actionId, c.nonce, r6);
    Piece(ids + c.actionId + c.nonce, expires, r7);
    Piece(ids + c.actionId + c.nonce + expires, c.policyCommitment, r8);
    NumberPiece(b, 12, c.proposalIndex, 8);
    NumberPiece(b, 148, Twos(c.expiresAt), 8);
  }

  lemma TextPiece(a: seq<byte>, v: seq<byte>, t: seq<byte>)
    ensures var b := a + Text16(v, t);
      b == a + LE(|v|, 2) + v + t && TextAt(b, |a|, v)
  {
    hide LE, NumberAt;
    Piece(a, LE(|v|, 2), v + t);
    Piece(a + LE(|v|, 2), v, t);
    NumberPiece(a + Text16(v, t), |a|, |v|, 2);
  }

  lemma BytePiece(a: seq<byte>, x: byte, t: seq<byte>)
    ensures var b := a + ([x] + t);
      b == a + [x] + t && b[|a|] == x
  {
  }

  lemma RowOffsets(a: seq<byte>, r: TransferRow, t: seq<byte>)
    ensures RowAt(a + RowThen(r, t), |a|, r)
  {
    hide LE, NumberAt, Text16, TextAt, IdentityEncoding.Code;
    var b := a + RowThen(r, t);
    var r6 := Text16(r.displayAsset, t);
    var r4 := LE(r.rawAmount, 16) + ([r.decimals] + r6);
    var r2 := [r.assetEncoding.Code()] + Text16(r.asset, r4);
    BytePiece(a, r.recipientEncoding.Code(), Text16(r.recipient, r2));
    var a1 := a + [r.recipientEncoding.Code()];
    TextPiece(a1, r.recipient, r2);
    var a2 := a1 + LE(|r.recipient|, 2) + r.recipient;
    BytePiece(a2, r.assetEncoding.Code(), Text16(r.asset, r4));
    var a3 := a2 + [r.assetEncoding.Code()];
    TextPiece(a3, r.asset, r4);
    var a4 := a3 + LE(|r.asset|, 2) + r.asset;
    Piece(a4, LE(r.rawAmount, 16), [r.decimals] + r6);
    NumberPiece(b, |a4|, r.rawAmount, 16);
    var a5 := a4 + LE(r.rawAmount, 16);
    BytePiece(a5, r.decimals, r6);
    TextPiece(a5 + [r.decimals], r.displayAsset, t);
  }

  /** Whatever an encoder writes or the parser accepts is the spelling of the request's table; its fixed
      fields, and the row of a single transfer, are at these positions, low bytes first. */
  lemma IntentBytes(b: seq<byte>, q: Request)
    requires Parse(b) == Ok(q) || exists capacity: nat :: Encode(q, capacity) == Ok(b)
    ensures b == Spell(RequestFields(q)) && FixedAt(b, q)
    ensures q.body.SendBody? ==> RowAt(b, 189, q.body.row)
  {
    hide Parse, Encode, Serialize, RequestFields, Spell, FixedAt, RowAt;
    if Parse(b) == Ok(q) {
      CodecLaws.ParseIffSerialized(b, q);
    } else {
      var capacity: nat :| Encode(q, capacity) == Ok(b);
      CodecLaws.EncodeIffSerialized(q, capacity, b);
    }
    SerializedAsTable(q);
    FixedOffsets(q);
    if q.body.SendBody? {
      SendOffsets(q);
    }
  }

  lemma SendOffsets(q: Request)
    requires q.body.SendBody?
    ensures RowAt(Serialize(q), 189, q.body.row)
  {
    hide RowThen, RowAt, CommonThen, FiatThen, Text16;
    var t := Text16(q.reason, []);
    CodecLaws.CommonSplit(q.common, Send, BodyThen(q.body, t));
    CodecLaws.CommonLength(q.common, Send, []);
    RowOffsets(CommonThen(q.common, Send, []), q.body.row, q.body.executionCommitment + FiatThen(q.body.fiat, t));
  }
}

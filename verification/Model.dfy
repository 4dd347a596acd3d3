/** The ClearSign v4 approval intent: entities, code tables and field checks. */
module Model {
  import opened Base

  datatype Error =
    | BufferTooSmall
    | InvalidMagic
    | UnsupportedVersion
    | UnsupportedAction
    | UnknownDeviceProfile
    | UnknownNetwork
    | InvalidEncoding
    | InvalidLength
    | InvalidText
    | InvalidAmount
    | InvalidContext
    | TrailingBytes
    | MessageTooLong

  type Check = Result<(), Error>

  datatype ActionKind =
    | Send | BatchSend | AddMember | RemoveMember | ChangeThreshold | SetProtection
    | ReleaseMilestone | ReturnEscrowFunds | AgentTradeApproval | RecoveryAction | SwapIntent
    | AgentSessionGrant | AgentRiskPolicy | AgentTradeSettlement | RecurringSchedule | SetAssetProtection
  {
    function Code(): byte {
      match this
      case Send => 1 case BatchSend => 2 case AddMember => 3 case RemoveMember => 4
      case ChangeThreshold => 5 case SetProtection => 6 case ReleaseMilestone => 7
      case ReturnEscrowFunds => 8 case AgentTradeApproval => 9 case RecoveryAction => 10
      case SwapIntent => 11 case AgentSessionGrant => 12 case AgentRiskPolicy => 13
      case AgentTradeSettlement => 14 case RecurringSchedule => 15 case SetAssetProtection => 16
    }

    /** The inverse of the code table: it accepts exactly the codes in use. */
    static function FromCode(c: byte): (r: Result<ActionKind, Error>)
      ensures forall k: ActionKind :: k.Code() == c ==> r == Ok(k)
      ensures r.Ok? ==> r.value.Code() == c
      ensures r.Err? ==> r.error == UnsupportedAction
    {
      var r := match c
        case 1 => Ok(Send) case 2 => Ok(BatchSend) case 3 => Ok(AddMember) case 4 => Ok(RemoveMember)
        case 5 => Ok(ChangeThreshold) case 6 => Ok(SetProtection) case 7 => Ok(ReleaseMilestone)
        case 8 => Ok(ReturnEscrowFunds) case 9 => Ok(AgentTradeApproval) case 10 => Ok(RecoveryAction)
        case 11 => Ok(SwapIntent) case 12 => Ok(AgentSessionGrant) case 13 => Ok(AgentRiskPolicy)
        case 14 => Ok(AgentTradeSettlement) case 15 => Ok(RecurringSchedule)
        case 16 => Ok(SetAssetProtection)
        case _ => Err(UnsupportedAction);
      assert r.Ok? ==> r.value.Code() == c;
      r
    }
  }

  datatype DeviceProfile = Full | LedgerSolana {
    function Code(): byte { if Full? then 1 else 2 }

    static function FromCode(c: byte): (r: Result<DeviceProfile, Error>)
      ensures forall p: DeviceProfile :: p.Code() == c ==> r == Ok(p)
      ensures r.Ok? ==> r.value.Code() == c
    {
      assert Full.Code() == 1 && LedgerSolana.Code() == 2;
      if c == 1 then Ok(Full) else if c == 2 then Ok(LedgerSolana) else Err(UnknownDeviceProfile)
    }

    function MaxDocumentBytes(): nat { if Full? then 1792 else 1024 }

    function DisplayLabel(): string {
      if Full? then "clearsig-full-v2@1" else "clearsig-ledger-solana-v2@1"
    }
  }

  datatype Network =
    | SolanaDevnet | EthereumSepolia | BitcoinTestnet | BitcoinSignet | BitcoinTestnet4
    | ZcashTestnet | HyperliquidTestnet | EthereumSepoliaErc20
  {
    function Code(): byte {
      match this
      case SolanaDevnet => 1 case EthereumSepolia => 2 case BitcoinTestnet => 3 case BitcoinSignet => 4
      case BitcoinTestnet4 => 5 case ZcashTestnet => 6 case HyperliquidTestnet => 7
      case EthereumSepoliaErc20 => 8
    }

    static function FromCode(c: byte): (r: Result<Network, Error>)
      ensures forall n: Network :: n.Code() == c ==> r == Ok(n)
      ensures r.Ok? ==> r.value.Code() == c
    {
      var r := match c
        case 1 => Ok(SolanaDevnet) case 2 => Ok(EthereumSepolia) case 3 => Ok(BitcoinTestnet)
        case 4 => Ok(BitcoinSignet) case 5 => Ok(BitcoinTestnet4) case 6 => Ok(ZcashTestnet)
        case 7 => Ok(HyperliquidTestnet) case 8 => Ok(EthereumSepoliaErc20)
        case _ => Err(UnknownNetwork);
      assert r.Ok? ==> r.value.Code() == c;
      r
    }

    function ChainKind(): byte {
      match this
      case SolanaDevnet => 0
      case EthereumSepolia => 1
      case EthereumSepoliaErc20 => 4
      case BitcoinTestnet | BitcoinSignet | BitcoinTestnet4 => 2
      case ZcashTestnet => 3
      case HyperliquidTestnet => 5
    }

    function DisplayName(): string {
      match this
      case SolanaDevnet => "Solana Devnet"
      case EthereumSepolia | EthereumSepoliaErc20 => "Ethereum Sepolia"
      case BitcoinTestnet => "Bitcoin Testnet"
      case BitcoinSignet => "Bitcoin Signet"
      case BitcoinTestnet4 => "Bitcoin Testnet4"
      case ZcashTestnet => "Zcash Testnet"
      case HyperliquidTestnet => "Hyperliquid Testnet"
    }
  }

  datatype IdentityEncoding = Text | SolanaPubkey | Sha256Text {
    function Code(): byte { match this case Text => 1 case SolanaPubkey => 2 case Sha256Text => 3 }

    static function FromCode(c: byte): (r: Result<IdentityEncoding, Error>)
      ensures forall e: IdentityEncoding :: e.Code() == c ==> r == Ok(e)
      ensures r.Ok? ==> r.value.Code() == c
    {
      assert Text.Code() == 1 && SolanaPubkey.Code() == 2 && Sha256Text.Code() == 3;
      match c case 1 => Ok(Text) case 2 => Ok(SolanaPubkey) case 3 => Ok(Sha256Text)
      case _ => Err(InvalidEncoding)
    }
  }

  datatype CommonFields = CommonFields(
    profile: DeviceProfile, network: Network, proposalIndex: u64, walletId: Bytes32, actor: Bytes32,
    actionId: Bytes32, nonce: Bytes32, expiresAt: i64, policyCommitment: Bytes32, approvalRequired: byte)

  datatype TransferRow = TransferRow(
    recipientEncoding: IdentityEncoding, recipient: seq<byte>,
    assetEncoding: IdentityEncoding, asset: seq<byte>,
    rawAmount: u128, decimals: byte, displayAsset: seq<byte>)

  datatype FiatEstimate = FiatEstimate(
    amount: seq<byte>, currency: seq<byte>, source: seq<byte>, observedAt: i64)

  /** What each `encode_*` function is given besides the common fields and the reason. */
  datatype Body =
    | SendBody(row: TransferRow, executionCommitment: Bytes32, fiat: Option<FiatEstimate>)
    | BatchBody(rows: seq<TransferRow>)
    | GovernanceBody(kind: ActionKind, targetIntentIndex: byte, approvalThreshold: byte,
                     cancellationThreshold: byte, timelockSeconds: u32,
                     proposers: seq<Bytes32>, approvers: seq<Bytes32>)
    | PolicyBody(chainKind: byte, newPolicyCommitment: Bytes32)
    | AssetPolicyBody(chainKind: byte, scopeKind: byte, decimals: byte, mint: Bytes32,
                      displayAsset: seq<byte>, newPolicyCommitment: Bytes32)
    | EscrowReleaseBody(escrowId: seq<byte>, escrowTitle: seq<byte>, milestoneId: seq<byte>,
                        milestoneTitle: seq<byte>, payment: TransferRow, executionCommitment: Bytes32)
    | EscrowReturnBody(escrowId: seq<byte>, escrowTitle: seq<byte>, rows: seq<TransferRow>,
                       executionCommitment: Bytes32)
    | AgentTradeBody(agentId: seq<byte>, venue: seq<byte>, market: seq<byte>, side: seq<byte>,
                     assetId: seq<byte>, maxNotionalRaw: u128, maxLeverageX100: u32,
                     sessionId: seq<byte>, route: seq<byte>, riskCheckHash: Bytes32)
    | AgentSessionBody(sessionId: seq<byte>, agentId: seq<byte>, venue: seq<byte>, market: seq<byte>,
                       maxNotionalRaw: u128, maxLeverageX100: u32, sessionExpiresAt: i64, status: byte)
    | AgentRiskBody(sessionId: seq<byte>, oraclePolicyHash: Bytes32, maxLossRaw: u128, status: byte)
    | AgentSettlementBody(sessionId: seq<byte>, executionId: seq<byte>, settlementArtifactHash: Bytes32,
                          oraclePolicyHash: Bytes32, closedNotionalRaw: u128, outcome: byte,
                          pnlAbsRaw: u128, settlementSequence: u64)
    | RecurringBody(scheduleId: seq<byte>, payment: TransferRow, executionCommitment: Bytes32,
                    intervalSeconds: u32, firstExecutionAt: i64, paymentCount: u32, status: byte)
  {
    function Kind(): ActionKind {
      match this
      case SendBody(_, _, _) => Send
      case BatchBody(_) => BatchSend
      case GovernanceBody(kind, _, _, _, _, _, _) => kind
      case PolicyBody(_, _) => SetProtection
      case AssetPolicyBody(_, _, _, _, _, _) => SetAssetProtection
      case EscrowReleaseBody(_, _, _, _, _, _) => ReleaseMilestone
      case EscrowReturnBody(_, _, _, _) => ReturnEscrowFunds
      case AgentTradeBody(_, _, _, _, _, _, _, _, _, _) => AgentTradeApproval
      case AgentSessionBody(_, _, _, _, _, _, _, _) => AgentSessionGrant
      case AgentRiskBody(_, _, _, _) => AgentRiskPolicy
      case AgentSettlementBody(_, _, _, _, _, _, _, _) => AgentTradeSettlement
      case RecurringBody(_, _, _, _, _, _, _) => RecurringSchedule
    }
  }

  datatype Request = Request(common: CommonFields, body: Body, reason: seq<byte>)

  /** What `parse_intent` returns. Rows, fiat estimates and key lists stay encoded, as slices of the
      input; the nine shapes that hold no slice reuse the fields they were encoded from. */
  datatype Action =
    | TransferAction(row: TransferRow, executionCommitment: Bytes32, encodedFiatEstimate: seq<byte>)
    | BatchAction(encodedRows: seq<byte>, rowCount: byte)
    | GovernanceAction(kind: ActionKind, targetIntentIndex: byte, approvalThreshold: byte,
                       cancellationThreshold: byte, timelockSeconds: u32,
                       proposers: seq<byte>, proposerCount: byte, approvers: seq<byte>, approverCount: byte)
    | EscrowReturnAction(escrowId: seq<byte>, escrowTitle: seq<byte>, encodedRows: seq<byte>,
                         rowCount: byte, executionCommitment: Bytes32)
    | DirectAction(body: Body)

  datatype Intent = Intent(common: CommonFields, action: Action, reason: seq<byte>, encoded: seq<byte>) {
    function Kind(): ActionKind {
      match action
      case TransferAction(_, _, _) => Send
      case BatchAction(_, _) => BatchSend
      case GovernanceAction(kind, _, _, _, _, _, _, _, _) => kind
      case EscrowReturnAction(_, _, _, _, _) => ReturnEscrowFunds
      case DirectAction(body) => body.Kind()
    }
  }

  const MAX_CANONICAL_INTENT_BYTES: nat := 2048
  const MAX_REASON_BYTES: nat := 160
  const MAX_IDENTITY_BYTES: nat := 192
  const MAX_ASSET_BYTES: nat := 96

  predicate Visible(s: seq<byte>) {
    forall i :: 0 <= i < |s| ==> 0x20 <= s[i] <= 0x7e
  }

  function ValidateVisibleAscii(value: seq<byte>, max: nat, allowEmpty: bool): Check {
    if |value| > max || (!allowEmpty && value == []) then Err(InvalidLength)
    else Need(Visible(value), InvalidText)
  }

  function ValidateIdentity(encoding: IdentityEncoding, value: seq<byte>, max: nat): Check {
    if value == [] || |value| > max then Err(InvalidLength)
    else if encoding.SolanaPubkey? then Need(|value| == 32, InvalidLength)
    else ValidateVisibleAscii(value, max, false)
  }

  function ValidateRow(row: TransferRow): Check {
    var _ :- ValidateIdentity(row.recipientEncoding, row.recipient, MAX_IDENTITY_BYTES);
    var _ :- ValidateIdentity(row.assetEncoding, row.asset, MAX_ASSET_BYTES);
    var _ :- ValidateVisibleAscii(row.displayAsset, 24, false);
    Need(row.rawAmount != 0 && row.decimals <= 36, InvalidAmount)
  }

  function Dots(s: seq<byte>): nat {
    if s == [] then 0 else (if s[0] == '.' as int then 1 else 0) + Dots(s[1..])
  }

  /** Digits with at most one dot, which is neither first nor last. */
  predicate FiatAmountText(s: seq<byte>)
    requires s != []
  {
    && (forall i :: 0 <= i < |s| ==> '0' as int <= s[i] <= '9' as int || s[i] == '.' as int)
    && s[0] != '.' as int && s[|s| - 1] != '.' as int && Dots(s) <= 1
  }

  function ValidateFiat(f: FiatEstimate): Check {
    var _ :- ValidateVisibleAscii(f.amount, 32, false);
    var _ :- ValidateVisibleAscii(f.currency, 8, false);
    var _ :- ValidateVisibleAscii(f.source, 64, false);
    Need(f.observedAt > 0 && FiatAmountText(f.amount), InvalidAmount)
  }

  function ValidateApproval(approvalRequired: byte): Check {
    Need(1 <= approvalRequired <= 16, InvalidContext)
  }

  predicate IsGovernance(kind: ActionKind) {
    kind.AddMember? || kind.RemoveMember? || kind.ChangeThreshold?
  }

  predicate NativeSol(payment: TransferRow) {
    payment.asset == Ascii("SOL") && payment.assetEncoding.Text? && payment.decimals == 9
  }

  predicate SplToken(payment: TransferRow) {
    payment.assetEncoding.SolanaPubkey? && |payment.asset| == 32 && payment.decimals <= 18
  }

  /** The field checks of each encoder before the reason is looked at, in the source's order.
      Rows of a batch are checked later, between writes. */
  function ValidateBody(body: Body, network: Network): Check {
    match body
    case SendBody(row, _, _) => ValidateRow(row)
    case BatchBody(rows) => Need(1 <= |rows| <= 16, InvalidLength)
    case GovernanceBody(kind, _, approval, cancellation, _, proposers, approvers) =>
      Need(IsGovernance(kind) && 1 <= |proposers| <= 16 && 1 <= |approvers| <= 16
           && 1 <= approval <= |approvers| && 1 <= cancellation <= |approvers|, InvalidContext)
    case PolicyBody(chainKind, _) => Need(chainKind == network.ChainKind(), InvalidContext)
    case AssetPolicyBody(chainKind, scopeKind, decimals, mint, displayAsset, _) =>
      var _ :- Need(chainKind == network.ChainKind() && scopeKind == 1 && decimals <= 18
                    && !IsZero(mint), InvalidContext);
      ValidateVisibleAscii(displayAsset, 16, false)
    case EscrowReleaseBody(escrowId, escrowTitle, milestoneId, milestoneTitle, payment, _) =>
      var _ :- ValidateVisibleAscii(escrowId, 96, false);
      var _ :- ValidateVisibleAscii(escrowTitle, 96, false);
      var _ :- ValidateVisibleAscii(milestoneId, 96, false);
      var _ :- ValidateVisibleAscii(milestoneTitle, 96, false);
      ValidateRow(payment)
    case EscrowReturnBody(escrowId, escrowTitle, rows, _) =>
      var _ :- Need(1 <= |rows| <= 16, InvalidLength);
      var _ :- ValidateVisibleAscii(escrowId, 96, false);
      ValidateVisibleAscii(escrowTitle, 96, false)
    case AgentTradeBody(agentId, venue, market, side, assetId, notional, leverage, sessionId, route, _) =>
      var _ :- ValidateTexts([agentId, venue, market, side, assetId, sessionId, route]);
      Need((side == Ascii("long") || side == Ascii("short")) && notional != 0 && leverage != 0, InvalidAmount)
    case AgentSessionBody(sessionId, agentId, venue, market, notional, leverage, _, status) =>
      var _ :- ValidateTexts([sessionId, agentId, venue, market]);
      Need(notional != 0 && leverage != 0 && 1 <= status <= 2, InvalidContext)
    case AgentRiskBody(sessionId, _, maxLoss, status) =>
      var _ :- ValidateVisibleAscii(sessionId, 96, false);
      Need(1 <= status <= 2 && (status == 1 ==> maxLoss != 0), InvalidContext)
    case AgentSettlementBody(sessionId, executionId, _, _, closed, outcome, pnl, _) =>
      var _ :- ValidateVisibleAscii(sessionId, 96, false);
      var _ :- ValidateVisibleAscii(executionId, 96, false);
      Need(closed != 0 && 1 <= outcome <= 3 && (outcome == 3 <==> pnl == 0), InvalidAmount)
    case RecurringBody(scheduleId, payment, commitment, interval, _, count, status) =>
      var _ :- ValidateVisibleAscii(scheduleId, 96, false);
      var _ :- ValidateRow(payment);
      Need(((NativeSol(payment) && IsZero(commitment)) || (SplToken(payment) && !IsZero(commitment)))
           && interval >= 3600 && 1 <= count <= 1000 && 1 <= status <= 2, InvalidContext)
  }

  /** The loop at the head of the agent encoders. */
  function ValidateTexts(values: seq<seq<byte>>): (r: Check)
    ensures r.Ok? <==> forall i :: 0 <= i < |values| ==> ValidateVisibleAscii(values[i], 96, false).Ok?
  {
    if values == [] then Ok(()) else
    var _ :- ValidateVisibleAscii(values[0], 96, false);
    ValidateTexts(values[1..])
  }

  function ValidateOptionalFiat(fiat: Option<FiatEstimate>): Check {
    if fiat.None? then Ok(()) else ValidateFiat(fiat.value)
  }

  /** Everything an encoder checks before its first write. */
  function ValidateRequest(q: Request): Check {
    var _ :- ValidateBody(q.body, q.common.network);
    var _ :- ValidateVisibleAscii(q.reason, MAX_REASON_BYTES, true);
    var _ :- if q.body.SendBody? then ValidateOptionalFiat(q.body.fiat) else Ok(());
    ValidateApproval(q.common.approvalRequired)
  }

  function RowsOf(body: Body): seq<TransferRow> {
    match body
    case BatchBody(rows) => rows
    case EscrowReturnBody(_, _, rows, _) => rows
    case _ => []
  }

  /** The requests the encoders accept, given a large enough buffer. */
  ghost predicate Accepted(q: Request) {
    ValidateRequest(q).Ok? && forall i :: 0 <= i < |RowsOf(q.body)| ==> ValidateRow(RowsOf(q.body)[i]).Ok?
  }
}

/** The text a signer reads for a single transfer: its fixed parts, what it shows of a request, the full
    and the compact layout, and how long and how legible their parts are. */
module Documents {
  import opened Base
  import opened Model
  import opened Io
  import Base58
  import Decimal

  const NEWLINE: byte := 10
  const SPACE: byte := 0x20

  // ----- The fixed parts -----

  const SEND := Ascii("ClearSig Approval\n\nACTION\nSend ")
  const FROM_WALLET := Ascii("\n\nDETAILS\nFrom wallet: ")
  const NETWORK := Ascii("\nNetwork: ")
  const AMOUNT := Ascii("\nAmount: ")
  const TO := Ascii("\nTo: ")
  const ASSET_ID := Ascii("\nAsset ID: ")
  const TEMPLATE := Ascii("\nExecution template: ")
  const ESTIMATED := Ascii("\nEstimated at review: ")
  const INFORMATIONAL := Ascii(" (informational)")
  const PRICE_SOURCE := Ascii("\nPrice source: ")
  const PRICE_OBSERVED := Ascii("\nPrice observed: ")
  const UNIX_SECONDS := Ascii(" Unix seconds")
  const APPROVAL := Ascii("\n\nPOLICY\nApproval: ")
  const SIGNATURE := Ascii(" signature required")
  const SIGNATURES := Ascii(" signatures required")
  const EXECUTION := Ascii("\nExecution: Exact canonical payload, ") + Ascii("policy, and timelock enforced onchain")
  const POLICY_COMMITMENT := Ascii("\nPolicy commitment: ")
  const DISPLAY_PROFILE := Ascii("\nDisplay profile: ")
  const MARKER := Ascii("Protocol: clearsig-intent-v4@1")
  const CATEGORY := Ascii("\n\nRISK\nCategory: ")
  const SEND_CATEGORY := Ascii("Funds movement")
  const SIGNER_CHECK := Ascii("\nSigner check: ")
  const SEND_CHECK := Ascii("Verify amount, asset, ") + Ascii("network, and full destination")
  const PURPOSE := Ascii("\n\nPURPOSE\n")
  const NOT_PROVIDED := Ascii("Not provided")
  const FULL_LABEL := Ascii(Full.DisplayLabel())

  const COMPACT_START := Ascii("ClearSig v4\n")
  const COMPACT_SEND := Ascii("SEND ")
  const COMPACT_TO := Ascii("\nTO ")
  const COMPACT_ASSET := Ascii("\nASSET ")
  const COMPACT_EXEC := Ascii("\nEXEC ")
  const COMPACT_NET := Ascii("\nNET ")
  const COMPACT_FROM := Ascii("\nFROM ")
  const COMPACT_APPROVAL := Ascii("\nAPPROVAL ")
  const COMPACT_PROPOSAL := Ascii("\nPROPOSAL ")
  const COMPACT_EXPIRES := Ascii("\nEXPIRES ")
  const COMPACT_POLICY := Ascii("\nPOLICY ")
  const COMPACT_PROFILE := Ascii("\nPROFILE ")
  const COMPACT_LABEL := Ascii(LedgerSolana.DisplayLabel())

  // ----- What a review shows -----

  datatype Shown = Shown(
    amount: seq<byte>,
    asset: seq<byte>,
    wallet: seq<byte>,
    network: seq<byte>,
    recipient: seq<byte>,
    assetId: Option<seq<byte>>,
    commitment: Bytes32,
    fiat: Option<FiatEstimate>,
    approvals: byte,
    policy: Bytes32,
    purpose: seq<byte>,
    proposalIndex: u64,
    expiresAt: i64)

  function AmountBytes(row: TransferRow): seq<byte> { Ascii(Decimal.AmountText(row.rawAmount, row.decimals)) }

  /** `display_asset`. */
  function DisplayAsset(row: TransferRow): seq<byte> { if row.displayAsset == [] then row.asset else row.displayAsset }

  function ShownOf(q: Request, wallet: seq<byte>): Shown
    requires q.body.SendBody?
  {
    var row, c := q.body.row, q.common;
    Shown(
      AmountBytes(row), DisplayAsset(row), wallet, Ascii(c.network.DisplayName()),
      IdentityText(row.recipientEncoding, row.recipient),
      if row.assetEncoding.Text? then None else Some(row.asset),
      q.body.executionCommitment, q.body.fiat, c.approvalRequired, c.policyCommitment,
      if q.reason == [] then NOT_PROVIDED else q.reason, c.proposalIndex, c.expiresAt)
  }

  /** What the full document leaves out, and what the compact one does. */
  function FullView(s: Shown): Shown { s.(proposalIndex := 0, expiresAt := 0) }

  function CompactView(s: Shown): Shown { s.(fiat := None, purpose := []) }

  function LeadThen(s: Shown, t: seq<byte>): seq<byte> {
    SEND + (s.amount + ([SPACE] + (s.asset + (FROM_WALLET + (s.wallet + t)))))
  }

  function DetailsThen(s: Shown, t: seq<byte>): seq<byte> {
    NETWORK + (s.network + (AMOUNT + (s.amount + ([SPACE] + (s.asset + (TO + (s.recipient + t)))))))
  }

  function TaggedThen(tag: seq<byte>, value: Option<seq<byte>>, t: seq<byte>): seq<byte> {
    if value.None? then t else tag + (value.value + t)
  }

  function Hexed(commitment: Bytes32): Option<seq<byte>> {
    if IsZero(commitment) then None else Some(HexText(commitment))
  }

  function EstimateThen(fiat: Option<FiatEstimate>, t: seq<byte>): seq<byte> {
    match fiat
    case None => t
    case Some(f) =>
      ESTIMATED + (f.amount + ([SPACE] + (f.currency + (INFORMATIONAL + (PRICE_SOURCE + (f.source
      + (PRICE_OBSERVED + (Number(f.observedAt) + (UNIX_SECONDS + t)))))))))
  }

  function Number(n: int): seq<byte> { Ascii(Decimal.Dec(Magnitude(n))) }

  function Signatures(n: byte): seq<byte> { if n == 1 then SIGNATURE else SIGNATURES }

  function ReviewFooter(s: Shown): seq<byte> {
    APPROVAL + (Number(s.approvals) + (Signatures(s.approvals) + (EXECUTION + (POLICY_COMMITMENT + (HexText(s.policy)
    + (DISPLAY_PROFILE + (FULL_LABEL + ([NEWLINE] + (MARKER + (CATEGORY + (SEND_CATEGORY + (SIGNER_CHECK + (SEND_CHECK
    + (PURPOSE + s.purpose))))))))))))))
  }

  function OptionsThen(s: Shown, t: seq<byte>): seq<byte> {
    TaggedThen(ASSET_ID, s.assetId, TaggedThen(TEMPLATE, Hexed(s.commitment), EstimateThen(s.fiat, t)))
  }

  function FullText(s: Shown): seq<byte> {
    LeadThen(s, DetailsThen(s, OptionsThen(s, ReviewFooter(s))))
  }

  function CompactLeadThen(s: Shown, t: seq<byte>): seq<byte> {
    COMPACT_START + (COMPACT_SEND + (s.amount + ([SPACE] + (s.asset + (COMPACT_TO + (s.recipient + t))))))
  }

  function CompactOptionsThen(s: Shown, t: seq<byte>): seq<byte> {
    TaggedThen(COMPACT_ASSET, s.assetId, TaggedThen(COMPACT_EXEC, Hexed(s.commitment), t))
  }

  function Expiry(at: i64): seq<byte> { Ascii(SignedText(at)) }

  function CompactFooter(s: Shown): seq<byte> {
    COMPACT_NET + (s.network + (COMPACT_FROM + (s.wallet + (COMPACT_APPROVAL + (Number(s.approvals) + (COMPACT_PROPOSAL
    + (Number(s.proposalIndex) + (COMPACT_EXPIRES + (Expiry(s.expiresAt) + (COMPACT_POLICY + (HexText(s.policy)
    + (COMPACT_PROFILE + (COMPACT_LABEL + ([NEWLINE] + MARKER))))))))))))))
  }

  function CompactText(s: Shown): seq<byte> {
    CompactLeadThen(s, CompactOptionsThen(s, CompactFooter(s)))
  }

  // ----- Text that shows -----

  predicate Shows(b: byte) { SPACE <= b <= 0x7e || b == NEWLINE }

  predicate Printable(s: seq<byte>) { forall i :: 0 <= i < |s| ==> Shows(s[i]) }

  predicate Literal(s: string) { forall i :: 0 <= i < |s| ==> ' ' <= s[i] <= '~' || s[i] == '\n' }

  lemma LiteralPrints(s: string)
    requires Literal(s)
    ensures Printable(Ascii(s))
  {
  }

  lemma PrintsBoth(a: seq<byte>, b: seq<byte>)
    ensures Printable(a + b) <==> Printable(a) && Printable(b)
  {
    var c := a + b;
    assert forall i :: 0 <= i < |a| ==> a[i] == c[i];
    assert forall i :: 0 <= i < |b| ==> b[i] == c[|a| + i];
  }

  predicate Without(s: seq<byte>, b: byte) { forall i :: 0 <= i < |s| ==> s[i] != b }

  /** A field inside one line. */
  predicate Field(s: seq<byte>) { Printable(s) && Without(s, NEWLINE) }

  /** Every part but the asset id stays inside its line. */
  predicate Legible(s: Shown) {
    && s.wallet != [] && s.network != []
    && Word(s.amount) && Field(s.asset) && Field(s.wallet) && Field(s.network) && Field(s.recipient)
    && (s.fiat.Some? ==> Word(s.fiat.value.amount) && Field(s.fiat.value.currency) && Field(s.fiat.value.source)
                         && s.fiat.value.observedAt > 0)
    && Field(s.purpose)
  }

  /** An asset id stays inside its line, or it is the 32 bytes of a key, whatever they are. */
  predicate IdLegible(s: Shown) { s.assetId.Some? ==> Field(s.assetId.value) || |s.assetId.value| == 32 }

  predicate Word(s: seq<byte>) { Field(s) && Without(s, SPACE) }

  lemma VisibleIsField(s: seq<byte>)
    ensures Visible(s) ==> Field(s)
  {
  }

  lemma DigitsAreWord(s: string)
    requires forall i :: 0 <= i < |s| ==> Decimal.IsDigit(s[i]) || s[i] == '.' || s[i] == '-'
    ensures Word(Ascii(s))
  {
  }

  lemma AmountIsWord(row: TransferRow)
    ensures Word(AmountBytes(row))
  {
    hide Decimal.Dec, Decimal.Padded, Decimal.TrimEndZeros, Pow, Ascii;
    PowPositive(10, row.decimals);
    DigitsAreWord(Decimal.AmountText(row.rawAmount, row.decimals)) by {
      var scale := Pow(10, row.decimals);
      var padded := Decimal.Padded(row.rawAmount % scale, row.decimals);
      var f := Decimal.TrimEndZeros(padded);
      assert forall i :: 0 <= i < |f| ==> f[i] == padded[i];
    }
  }

  lemma NumberIsWord(n: int)
    ensures Word(Number(n))
  {
    DigitsAreWord(Decimal.Dec(Magnitude(n)));
  }

  lemma ExpiryIsWord(at: i64)
    ensures Word(Expiry(at))
  {
    DigitsAreWord(SignedText(at));
  }

  lemma {:induction false} HexIsWord(s: seq<byte>)
    ensures Word(HexText(s))
  {
    if s != [] {
      HexIsWord(s[..|s| - 1]);
    }
  }

  lemma Base58IsWord(s: seq<byte>)
    ensures Word(Base58.Base58Text(s))
  {
    hide Base58.LeadingZeros, Base58.NumberDigits;
  }

  /** Whatever a validated transfer shows is legible. */
  lemma ShownLegible(q: Request, wallet: seq<byte>)
    requires Accepted(q) && q.body.SendBody? && ValidateVisibleAscii(wallet, 64, false).Ok?
    ensures Legible(ShownOf(q, wallet))
    ensures IdLegible(ShownOf(q, wallet))
  {
    hide Visible, Word, Field, IdentityText, AmountBytes, FiatAmountText;
    var row := q.body.row;
    AmountIsWord(row);
    VisibleIsField(DisplayAsset(row));
    VisibleIsField(wallet);
    NetworkIsField(q.common.network);
    RecipientIsField(row);
    VisibleIsField(row.asset);
    VisibleIsField(q.reason);
    ReasonIsField();
    if q.body.fiat.Some? {
      FiatIsLegible(q.body.fiat.value);
    }
  }

  lemma NetworkIsField(n: Network)
    ensures Field(Ascii(n.DisplayName())) && Ascii(n.DisplayName()) != []
  {
    hide Field, Ascii;
    match n {
      case SolanaDevnet => LineIsField("Solana Devnet");
      case EthereumSepolia | EthereumSepoliaErc20 => LineIsField("Ethereum Sepolia");
      case BitcoinTestnet => LineIsField("Bitcoin Testnet");
      case BitcoinSignet => LineIsField("Bitcoin Signet");
      case BitcoinTestnet4 => LineIsField("Bitcoin Testnet4");
      case ZcashTestnet => LineIsField("Zcash Testnet");
      case HyperliquidTestnet => LineIsField("Hyperliquid Testnet");
    }
  }

  lemma LineIsField(s: string)
    requires forall i :: 0 <= i < |s| ==> ' ' <= s[i] <= '~'
    ensures Field(Ascii(s))
  {
  }

  lemma ReasonIsField()
    ensures Field(NOT_PROVIDED)
  {
    hide Field, Ascii;
    LineIsField("Not provided");
  }

  lemma RecipientIsField(row: TransferRow)
    requires ValidateRow(row).Ok?
    ensures Field(IdentityText(row.recipientEncoding, row.recipient))
  {
    hide Visible, Word, Field, Base58.Base58Text;
    if row.recipientEncoding.SolanaPubkey? {
      Base58IsWord(row.recipient);
      WordIsField(Base58.Base58Text(row.recipient));
    } else {
      VisibleIsField(row.recipient);
    }
  }

  lemma WordIsField(s: seq<byte>)
    requires Word(s)
    ensures Field(s)
  {
  }

  lemma FiatIsLegible(f: FiatEstimate)
    requires ValidateFiat(f).Ok?
    ensures Word(f.amount) && Field(f.currency) && Field(f.source) && f.observedAt > 0
  {
  }

  // ----- Printing -----

  lemma Skip(p: seq<byte>, t: seq<byte>)
    requires Printable(p)
    ensures Printable(p + t) <==> Printable(t)
  {
    PrintsBoth(p, t);
  }

  lemma SeparatorsPrint()
    ensures Printable([SPACE]) && Printable([NEWLINE])
  {
  }

  lemma LeadLiterals()
    ensures Printable(SEND) && Printable(FROM_WALLET)
  {
    hide Printable, Ascii;
    LiteralPrints("ClearSig Approval\n\nACTION\nSend ");
    LiteralPrints("\n\nDETAILS\nFrom wallet: ");
  }

  lemma DetailLiterals()
    ensures Printable(NETWORK) && Printable(AMOUNT) && Printable(TO)
  {
    hide Printable, Ascii;
    LiteralPrints("\nNetwork: ");
    LiteralPrints("\nAmount: ");
    LiteralPrints("\nTo: ");
  }

  lemma OptionLiterals()
    ensures Printable(ASSET_ID) && Printable(TEMPLATE) && Printable(COMPACT_ASSET) && Printable(COMPACT_EXEC)
  {
    hide Printable, Ascii;
    LiteralPrints("\nAsset ID: ");
    LiteralPrints("\nExecution template: ");
    LiteralPrints("\nASSET ");
    LiteralPrints("\nEXEC ");
  }

  lemma EstimateLiterals()
    ensures Printable(ESTIMATED) && Printable(INFORMATIONAL) && Printable(PRICE_SOURCE)
    ensures Printable(PRICE_OBSERVED) && Printable(UNIX_SECONDS)
  {
    hide Printable, Ascii;
    LiteralPrints("\nEstimated at review: ");
    LiteralPrints(" (informational)");
    LiteralPrints("\nPrice source: ");
    LiteralPrints("\nPrice observed: ");
    LiteralPrints(" Unix seconds");
  }

  lemma PolicyLiterals()
    ensures Printable(APPROVAL) && Printable(SIGNATURE) && Printable(SIGNATURES) && Printable(POLICY_COMMITMENT)
  {
    hide Printable, Ascii;
    LiteralPrints("\n\nPOLICY\nApproval: ");
    LiteralPrints(" signature required");
    LiteralPrints(" signatures required");
    LiteralPrints("\nPolicy commitment: ");
  }

  lemma ExecutionLiteral()
    ensures Printable(EXECUTION)
  {
    hide Printable, Ascii;
    LiteralPrints("\nExecution: Exact canonical payload, ");
    LiteralPrints("policy, and timelock enforced onchain");
    PrintsBoth(Ascii("\nExecution: Exact canonical payload, "), Ascii("policy, and timelock enforced onchain"));
  }

  lemma ProfileLiterals()
    ensures Printable(DISPLAY_PROFILE) && Printable(FULL_LABEL) && Printable(COMPACT_LABEL)
    ensures Printable(MARKER)
  {
    hide Printable, Ascii;
    LiteralPrints("\nDisplay profile: ");
    LiteralPrints("clearsig-full-v2@1");
    LiteralPrints("clearsig-ledger-solana-v2@1");
    LiteralPrints("Protocol: clearsig-intent-v4@1");
  }

  lemma RiskLiterals()
    ensures Printable(CATEGORY) && Printable(SEND_CATEGORY) && Printable(SIGNER_CHECK) && Printable(PURPOSE)
  {
    hide Printable, Ascii;
    LiteralPrints("\n\nRISK\nCategory: ");
    LiteralPrints("Funds movement");
    LiteralPrints("\nSigner check: ");
    LiteralPrints("\n\nPURPOSE\n");
  }

  lemma CheckLiteral()
    ensures Printable(SEND_CHECK)
  {
    hide Printable, Ascii;
    LiteralPrints("Verify amount, asset, ");
    LiteralPrints("network, and full destination");
    PrintsBoth(Ascii("Verify amount, asset, "), Ascii("network, and full destination"));
  }

  lemma CompactLiterals()
    ensures Printable(COMPACT_START) && Printable(COMPACT_SEND) && Printable(COMPACT_TO) && Printable(COMPACT_NET)
    ensures Printable(COMPACT_FROM) && Printable(COMPACT_APPROVAL) && Printable(COMPACT_PROPOSAL)
    ensures Printable(COMPACT_EXPIRES) && Printable(COMPACT_POLICY) && Printable(COMPACT_PROFILE)
  {
    hide Printable, Ascii;
    LiteralPrints("ClearSig v4\n");
    LiteralPrints("SEND ");
    LiteralPrints("\nTO ");
    LiteralPrints("\nNET ");
    LiteralPrints("\nFROM ");
    LiteralPrints("\nAPPROVAL ");
    LiteralPrints("\nPROPOSAL ");
    LiteralPrints("\nEXPIRES ");
    LiteralPrints("\nPOLICY ");
    LiteralPrints("\nPROFILE ");
  }
}

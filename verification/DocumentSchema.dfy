/** The documents of a single transfer, line by line. */
module DocumentSchema {
  import opened Base
  import opened Model
  import opened Io
  import opened Documents
  import Acceptance
  import Base58
  import Decimal
  import Rendering

  /** Each line behind a line feed, from line `i` on. */
  function More(ls: seq<seq<byte>>, i: nat, t: seq<byte>): seq<byte>
    requires i <= |ls|
    decreases |ls| - i
  {
    if i == |ls| then t else [10] + (ls[i] + More(ls, i + 1, t))
  }

  /** Lines with a line feed between them. */
  function Lines(ls: seq<seq<byte>>): seq<byte>
    requires ls != []
  {
    ls[0] + More(ls, 1, [])
  }

  // ----- The lines -----

  function Amount(row: TransferRow): seq<byte> {
    Ascii(Decimal.AmountText(row.rawAmount, row.decimals)) + (Ascii(" ") + row.displayAsset)
  }

  predicate AllZero(c: Bytes32) { forall i :: 0 <= i < 32 ==> c[i] == 0 }

  function NetworkName(n: Network): seq<byte> { Ascii(Acceptance.NETWORKS[n.Code() - 1].2) }

  function FullHead(q: Request, wallet: seq<byte>): seq<seq<byte>>
    requires q.body.SendBody?
  {
    var row := q.body.row;
    [Ascii("ClearSig Approval"), [],
     Ascii("ACTION"), Ascii("Send ") + Amount(row), [],
     Ascii("DETAILS"), Ascii("From wallet: ") + wallet, Ascii("Network: ") + NetworkName(q.common.network),
     Ascii("Amount: ") + Amount(row), Ascii("To: ") + IdentityText(row.recipientEncoding, row.recipient)]
  }

  function EstimateLines(fiat: Option<FiatEstimate>): seq<seq<byte>> {
    match fiat
    case None => []
    case Some(f) =>
      [Ascii("Estimated at review: ") + (f.amount + (Ascii(" ") + (f.currency + Ascii(" (informational)")))),
       Ascii("Price source: ") + f.source,
       Ascii("Price observed: ") + (Ascii(Decimal.Dec(Magnitude(f.observedAt))) + Ascii(" Unix seconds"))]
  }

  function FullOptions(q: Request): seq<seq<byte>>
    requires q.body.SendBody?
  {
    (if q.body.row.assetEncoding == Text then [] else [Ascii("Asset ID: ") + q.body.row.asset])
    + (if AllZero(q.body.executionCommitment) then [] else [Ascii("Execution template: ") + HexText(q.body.executionCommitment)])
    + EstimateLines(q.body.fiat)
  }

  function PolicyLines(q: Request): seq<seq<byte>> {
    var n := q.common.approvalRequired;
    [[],
     Ascii("POLICY"), Ascii("Approval: ") + (Ascii(Decimal.Dec(n)) + Ascii(if n == 1 then " signature required" else " signatures required")),
     Ascii("Execution: Exact canonical payload, ") + Ascii("policy, and timelock enforced onchain"),
     Ascii("Policy commitment: ") + HexText(q.common.policyCommitment), Ascii("Display profile: ") + Ascii("clearsig-full-v2@1"),
     Ascii("Protocol: clearsig-intent-v4@1")]
  }

  function RiskLines(q: Request): seq<seq<byte>> {
    [[],
     Ascii("RISK"), Ascii("Category: ") + Ascii("Funds movement"),
     Ascii("Signer check: ") + (Ascii("Verify amount, asset, ") + Ascii("network, and full destination")), [],
     Ascii("PURPOSE"), if q.reason == [] then Ascii("Not provided") else q.reason]
  }

  function CompactFirst(q: Request): seq<seq<byte>>
    requires q.body.SendBody?
  {
    var row := q.body.row;
    [Ascii("ClearSig v4"), Ascii("SEND ") + Amount(row), Ascii("TO ") + IdentityText(row.recipientEncoding, row.recipient)]
  }

  function CompactOptions(q: Request): seq<seq<byte>>
    requires q.body.SendBody?
  {
    (if q.body.row.assetEncoding == Text then [] else [Ascii("ASSET ") + q.body.row.asset])
    + (if AllZero(q.body.executionCommitment) then [] else [Ascii("EXEC ") + HexText(q.body.executionCommitment)])
  }

  function CompactFoot(q: Request, wallet: seq<byte>): seq<seq<byte>> {
    var c := q.common;
    [Ascii("NET ") + NetworkName(c.network), Ascii("FROM ") + wallet, Ascii("APPROVAL ") + Ascii(Decimal.Dec(c.approvalRequired)),
     Ascii("PROPOSAL ") + Ascii(Decimal.Dec(c.proposalIndex)),
     Ascii("EXPIRES ") + Ascii(if c.expiresAt < 0 then "-" + Decimal.Dec(Magnitude(c.expiresAt)) else Decimal.Dec(Magnitude(c.expiresAt))),
     Ascii("POLICY ") + HexText(c.policyCommitment), Ascii("PROFILE ") + Ascii("clearsig-ledger-solana-v2@1"), Ascii("Protocol: clearsig-intent-v4@1")]
  }

  // ----- Peeling lines -----

  lemma Peel(ls: seq<seq<byte>>, i: nat, t: seq<byte>)
    requires i <= |ls|
    ensures i == |ls| ==> More(ls, i, t) == t
    ensures i < |ls| ==> More(ls, i, t) == [10] + (ls[i] + More(ls, i + 1, t))
    ensures i + 1 < |ls| ==> More(ls, i + 1, t) == [10] + (ls[i + 1] + More(ls, i + 2, t))
    ensures i + 2 < |ls| ==> More(ls, i + 2, t) == [10] + (ls[i + 2] + More(ls, i + 3, t))
    ensures i < |ls| <= i + 3 ==> More(ls, |ls|, t) == t
  {
  }

  lemma {:induction false} MorePlus(ls: seq<seq<byte>>, ms: seq<seq<byte>>, i: nat, t: seq<byte>)
    requires i <= |ls|
    ensures More(ls + ms, i, t) == More(ls, i, More(ms, 0, t))
    decreases |ls| - i
  {
    if i == |ls| {
      MoreShift(ls, ms, 0, t);
    } else {
      MorePlus(ls, ms, i + 1, t);
    }
  }

  lemma {:induction false} MoreShift(ls: seq<seq<byte>>, ms: seq<seq<byte>>, j: nat, t: seq<byte>)
    requires j <= |ms|
    ensures More(ls + ms, |ls| + j, t) == More(ms, j, t)
    decreases |ms| - j
  {
    if j < |ms| {
      MoreShift(ls, ms, j + 1, t);
    }
  }

  /** A line with a heading and a value, behind its line feed. */
  lemma Labelled(tag: seq<byte>, heading: seq<byte>, value: seq<byte>, t: seq<byte>)
    requires tag == [10] + heading
    ensures [10] + ((heading + value) + t) == tag + (value + t)
  {
    Assoc(heading, value, t);
    Assoc([10], heading, value + t);
  }

  lemma AmountThen(heading: seq<byte>, row: TransferRow, t: seq<byte>)
    requires row.displayAsset != []
    ensures (heading + Amount(row)) + t == heading + (AmountBytes(row) + ([SPACE] + (DisplayAsset(row) + t)))
  {
    hide Decimal.AmountText;
    assert Ascii(" ") == [SPACE];
    Assoc([SPACE], row.displayAsset, t);
    Assoc(AmountBytes(row), [SPACE] + row.displayAsset, t);
    Assoc(heading, Amount(row), t);
  }

  /** A blank line, a title line and the start of another. */
  lemma TitleThen(tag: seq<byte>, title: seq<byte>, heading: seq<byte>, t: seq<byte>)
    requires tag == [10, 10] + title + [10] + heading
    ensures [10] + ([] + ([10] + (title + ([10] + (heading + t))))) == tag + t
  {
    Nothing([10] + (title + ([10] + (heading + t))));
    Assoc([10], [10], title + ([10] + (heading + t)));
    assert [10] + [10] == [10, 10];
    Assoc([10, 10], title, [10] + (heading + t));
    Assoc([10, 10] + title, [10], heading + t);
    Assoc([10, 10] + title + [10], heading, t);
  }

  lemma TitleLiterals()
    ensures SEND == Ascii("ClearSig Approval") + ([10, 10] + Ascii("ACTION") + [10] + Ascii("Send "))
  {
  }

  lemma DetailsLiteral()
    ensures FROM_WALLET == [10, 10] + Ascii("DETAILS") + [10] + Ascii("From wallet: ")
  {
  }

  lemma HeadLiterals()
    ensures NETWORK == [10] + Ascii("Network: ") && AMOUNT == [10] + Ascii("Amount: ") && TO == [10] + Ascii("To: ")
  {
  }

  lemma NameIs(n: Network)
    ensures NetworkName(n) == Ascii(n.DisplayName())
  {
    hide Ascii;
    Acceptance.CodesInOrder();
  }

  lemma FullHeadLines(q: Request, wallet: seq<byte>, t: seq<byte>)
    requires q.body.SendBody? && q.body.row.displayAsset != []
    ensures var s := ShownOf(q, wallet);
      FullHead(q, wallet)[0] + More(FullHead(q, wallet), 1, t) == LeadThen(s, DetailsThen(s, t))
  {
    hide Ascii, SEND, FROM_WALLET, NETWORK, AMOUNT, TO, Amount, AmountBytes, DisplayAsset, IdentityText, NetworkName, More, Network.DisplayName;
    var s, row, ls := ShownOf(q, wallet), q.body.row, FullHead(q, wallet);
    TitleLiterals();
    DetailsLiteral();
    HeadLiterals();
    NameIs(q.common.network);
    Peel(ls, 1, t);
    Peel(ls, 4, t);
    Peel(ls, 7, t);
    var recipient := TO + (s.recipient + t);
    Labelled(TO, Ascii("To: "), s.recipient, t);
    AmountThen(Ascii("Amount: "), row, recipient);
    var amount := AMOUNT + (s.amount + ([SPACE] + (s.asset + recipient)));
    Assoc([10], Ascii("Amount: "), s.amount + ([SPACE] + (s.asset + recipient)));
    Labelled(NETWORK, Ascii("Network: "), s.network, amount);
    var details := DetailsThen(s, t);
    Assoc(Ascii("From wallet: "), wallet, details);
    TitleThen(FROM_WALLET, Ascii("DETAILS"), Ascii("From wallet: "), wallet + details);
    var lead := FROM_WALLET + (wallet + details);
    AmountThen(Ascii("Send "), row, lead);
    var send := s.amount + ([SPACE] + (s.asset + lead));
    TitleThen([10, 10] + Ascii("ACTION") + [10] + Ascii("Send "), Ascii("ACTION"), Ascii("Send "), send);
    Assoc(Ascii("ClearSig Approval"), [10, 10] + Ascii("ACTION") + [10] + Ascii("Send "), send);
  }

  lemma ZeroIff(c: Bytes32)
    ensures AllZero(c) <==> IsZero(c)
  {
    assert c == ZERO32 <==> forall i :: 0 <= i < 32 ==> c[i] == ZERO32[i];
  }

  lemma OptionLiterals()
    ensures ASSET_ID == [10] + Ascii("Asset ID: ") && TEMPLATE == [10] + Ascii("Execution template: ")
    ensures COMPACT_ASSET == [10] + Ascii("ASSET ") && COMPACT_EXEC == [10] + Ascii("EXEC ")
  {
  }

  lemma EstimateLiterals()
    ensures ESTIMATED == [10] + Ascii("Estimated at review: ") && PRICE_SOURCE == [10] + Ascii("Price source: ")
    ensures PRICE_OBSERVED == [10] + Ascii("Price observed: ") && Ascii(" ") == [SPACE]
  {
  }

  lemma IdLines(tag: seq<byte>, heading: seq<byte>, row: TransferRow, t: seq<byte>)
    requires tag == [10] + heading
    ensures More(if row.assetEncoding == Text then [] else [heading + row.asset], 0, t)
            == TaggedThen(tag, if row.assetEncoding.Text? then None else Some(row.asset), t)
  {
    Labelled(tag, heading, row.asset, t);
  }

  lemma CommitmentLines(tag: seq<byte>, heading: seq<byte>, c: Bytes32, t: seq<byte>)
    requires tag == [10] + heading
    ensures More(if AllZero(c) then [] else [heading + HexText(c)], 0, t) == TaggedThen(tag, Hexed(c), t)
  {
    hide AllZero, IsZero, HexText;
    ZeroIff(c);
    Labelled(tag, heading, HexText(c), t);
  }

  lemma EstimateSpelled(fiat: Option<FiatEstimate>, t: seq<byte>)
    ensures More(EstimateLines(fiat), 0, t) == EstimateThen(fiat, t)
  {
    hide Ascii, ESTIMATED, PRICE_SOURCE, PRICE_OBSERVED, More, Decimal.Dec;
    var ls := EstimateLines(fiat);
    Peel(ls, 0, t);
    if fiat.Some? {
      var f := fiat.value;
      EstimateLiterals();
      var number, sources := Number(f.observedAt), Ascii(" Unix seconds");
      Labelled(PRICE_OBSERVED, Ascii("Price observed: "), number + sources, t);
      Assoc(number, sources, t);
      var t2 := PRICE_OBSERVED + (number + (UNIX_SECONDS + t));
      Labelled(PRICE_SOURCE, Ascii("Price source: "), f.source, t2);
      var t1 := PRICE_SOURCE + (f.source + t2);
      var info := Ascii(" (informational)");
      Labelled(ESTIMATED, Ascii("Estimated at review: "), f.amount + (Ascii(" ") + (f.currency + info)), t1);
      Assoc(f.currency, info, t1);
      Assoc([SPACE], f.currency + info, t1);
      Assoc(f.amount, [SPACE] + (f.currency + info), t1);
    }
  }

  lemma OptionLines(q: Request, wallet: seq<byte>, t: seq<byte>)
    requires q.body.SendBody?
    ensures More(FullOptions(q), 0, t) == OptionsThen(ShownOf(q, wallet), t)
  {
    hide Ascii, ASSET_ID, TEMPLATE, More, EstimateLines, EstimateThen, AllZero, Hexed, HexText, TaggedThen, AmountBytes, IdentityText, Network.DisplayName;
    OptionLiterals();
    var id := if q.body.row.assetEncoding == Text then [] else [Ascii("Asset ID: ") + q.body.row.asset];
    var template := if AllZero(q.body.executionCommitment) then [] else [Ascii("Execution template: ") + HexText(q.body.executionCommitment)];
    MorePlus(id + template, EstimateLines(q.body.fiat), 0, t);
    EstimateSpelled(q.body.fiat, t);
    var t1 := EstimateThen(q.body.fiat, t);
    MorePlus(id, template, 0, t1);
    CommitmentLines(TEMPLATE, Ascii("Execution template: "), q.body.executionCommitment, t1);
    IdLines(ASSET_ID, Ascii("Asset ID: "), q.body.row, TaggedThen(TEMPLATE, Hexed(q.body.executionCommitment), t1));
  }

  lemma PolicyLiteral()
    ensures APPROVAL == [10, 10] + Ascii("POLICY") + [10] + Ascii("Approval: ")
  {
  }

  lemma NewLine(tag: string, line: string)
    requires tag == "\n" + line
    ensures Ascii(tag) == [10] + Ascii(line)
  {
    AsciiAppend("\n", line);
    assert Ascii("\n") == [10];
  }

  lemma ExecutionStart()
    ensures Ascii("\nExecution: Exact canonical payload, ") == [10] + Ascii("Execution: Exact canonical payload, ")
  {
  }

  lemma ExecutionLiteral()
    ensures EXECUTION == [10] + (Ascii("Execution: Exact canonical payload, ") + Ascii("policy, and timelock enforced onchain"))
  {
    hide Ascii;
    ExecutionStart();
    Assoc([10], Ascii("Execution: Exact canonical payload, "), Ascii("policy, and timelock enforced onchain"));
  }

  lemma CommitmentLiteral()
    ensures POLICY_COMMITMENT == [10] + Ascii("Policy commitment: ")
  {
    hide Ascii;
    NewLine("\nPolicy commitment: ", "Policy commitment: ");
  }

  lemma ProfileLiteral()
    ensures DISPLAY_PROFILE == [10] + Ascii("Display profile: ")
  {
    hide Ascii;
    NewLine("\nDisplay profile: ", "Display profile: ");
  }

  lemma CategoryLiteral()
    ensures CATEGORY == [10, 10] + Ascii("RISK") + [10] + Ascii("Category: ")
  {
  }

  lemma CheckLiterals()
    ensures SIGNER_CHECK == [10] + Ascii("Signer check: ") && PURPOSE == [10, 10] + Ascii("PURPOSE") + [10]
  {
  }

  function RiskPart(s: Shown): seq<byte> {
    CATEGORY + (SEND_CATEGORY + (SIGNER_CHECK + (SEND_CHECK + (PURPOSE + s.purpose))))
  }

  lemma RiskSpelled(q: Request, wallet: seq<byte>)
    requires q.body.SendBody?
    ensures More(RiskLines(q), 0, []) == RiskPart(ShownOf(q, wallet))
  {
    hide Ascii, CATEGORY, SIGNER_CHECK, PURPOSE, More, HexText, AmountBytes, IdentityText, Network.DisplayName, DisplayAsset;
    var s, ls := ShownOf(q, wallet), RiskLines(q);
    Peel(ls, 0, []);
    Peel(ls, 3, []);
    Peel(ls, 6, []);
    CategoryLiteral();
    CheckLiterals();
    Nothing([10, 10] + Ascii("PURPOSE") + [10]);
    TitleThen(PURPOSE, Ascii("PURPOSE"), [], s.purpose);
    Nothing(s.purpose);
    var t2 := PURPOSE + s.purpose;
    Labelled(SIGNER_CHECK, Ascii("Signer check: "), SEND_CHECK, t2);
    var t1 := SIGNER_CHECK + (SEND_CHECK + t2);
    Assoc(Ascii("Category: "), SEND_CATEGORY, t1);
    TitleThen(CATEGORY, Ascii("RISK"), Ascii("Category: "), SEND_CATEGORY + t1);
  }

  lemma PolicySpelled(q: Request, wallet: seq<byte>)
    requires q.body.SendBody?
    ensures More(PolicyLines(q), 0, RiskPart(ShownOf(q, wallet))) == ReviewFooter(ShownOf(q, wallet))
  {
    hide Ascii, APPROVAL, EXECUTION, POLICY_COMMITMENT, DISPLAY_PROFILE, CATEGORY, SIGNER_CHECK, PURPOSE, More, HexText, AmountBytes,
         IdentityText, Network.DisplayName, DisplayAsset, Decimal.Dec;
    var s, ls := ShownOf(q, wallet), PolicyLines(q);
    var t := RiskPart(s);
    Peel(ls, 0, t);
    Peel(ls, 3, t);
    Peel(ls, 6, t);
    PolicyLiteral();
    ExecutionLiteral();
    CommitmentLiteral();
    ProfileLiteral();
    var t3 := [10] + (MARKER + t);
    Labelled(DISPLAY_PROFILE, Ascii("Display profile: "), FULL_LABEL, t3);
    var t2 := DISPLAY_PROFILE + (FULL_LABEL + t3);
    Labelled(POLICY_COMMITMENT, Ascii("Policy commitment: "), HexText(s.policy), t2);
    var t1 := POLICY_COMMITMENT + (HexText(s.policy) + t2);
    Assoc([10], Ascii("Execution: Exact canonical payload, ") + Ascii("policy, and timelock enforced onchain"), t1);
    var n, sig := Number(s.approvals), Signatures(s.approvals);
    Assoc(n, sig, EXECUTION + t1);
    Assoc(Ascii("Approval: "), n + sig, EXECUTION + t1);
    TitleThen(APPROVAL, Ascii("POLICY"), Ascii("Approval: "), n + (sig + (EXECUTION + t1)));
  }

  /** The full document is these lines. */
  lemma FullAsLines(q: Request, wallet: seq<byte>)
    requires Accepted(q) && q.body.SendBody?
    ensures FullText(ShownOf(q, wallet)) == Lines(FullHead(q, wallet) + FullOptions(q) + PolicyLines(q) + RiskLines(q))
  {
    hide Accepted, FullHead, FullOptions, PolicyLines, RiskLines, More, LeadThen, DetailsThen, OptionsThen, ReviewFooter, RiskPart, ShownOf;
    Named(q);
    var s := ShownOf(q, wallet);
    var head, options, policy, risk := FullHead(q, wallet), FullOptions(q), PolicyLines(q), RiskLines(q);
    assert |head| == 10 by { HeadLength(q, wallet); }
    MorePlus(head + options + policy, risk, 1, []);
    RiskSpelled(q, wallet);
    MorePlus(head + options, policy, 1, RiskPart(s));
    PolicySpelled(q, wallet);
    MorePlus(head, options, 1, ReviewFooter(s));
    OptionLines(q, wallet, ReviewFooter(s));
    FullHeadLines(q, wallet, OptionsThen(s, ReviewFooter(s)));
  }

  lemma HeadLength(q: Request, wallet: seq<byte>)
    requires q.body.SendBody?
    ensures |FullHead(q, wallet)| == 10
  {
  }

  lemma Named(q: Request)
    requires Accepted(q) && q.body.SendBody?
    ensures q.body.row.displayAsset != []
  {
    hide Visible;
  }

  lemma CompactLiterals()
    ensures COMPACT_START + COMPACT_SEND == Ascii("ClearSig v4") + ([10] + Ascii("SEND ")) && COMPACT_TO == [10] + Ascii("TO ")
  {
  }

  lemma CompactFootLiterals()
    ensures COMPACT_NET == [10] + Ascii("NET ") && COMPACT_FROM == [10] + Ascii("FROM ")
    ensures COMPACT_APPROVAL == [10] + Ascii("APPROVAL ") && COMPACT_PROPOSAL == [10] + Ascii("PROPOSAL ")
  {
  }

  lemma CompactLastLiterals()
    ensures COMPACT_EXPIRES == [10] + Ascii("EXPIRES ") && COMPACT_POLICY == [10] + Ascii("POLICY ")
    ensures COMPACT_PROFILE == [10] + Ascii("PROFILE ")
  {
  }

  lemma SignedIs(v: i64)
    ensures Expiry(v) == Ascii(if v < 0 then "-" + Decimal.Dec(Magnitude(v)) else Decimal.Dec(Magnitude(v)))
  {
    hide Ascii, Decimal.Dec;
    Nothing(Decimal.Dec(Magnitude(v)));
  }

  lemma CompactFirstLines(q: Request, wallet: seq<byte>, t: seq<byte>)
    requires q.body.SendBody? && q.body.row.displayAsset != []
    ensures CompactFirst(q)[0] + More(CompactFirst(q), 1, t) == CompactLeadThen(ShownOf(q, wallet), t)
  {
    hide Ascii, COMPACT_START, COMPACT_SEND, COMPACT_TO, Amount, AmountBytes, DisplayAsset, IdentityText, More, Network.DisplayName;
    var s, row, ls := ShownOf(q, wallet), q.body.row, CompactFirst(q);
    CompactLiterals();
    Peel(ls, 1, t);
    Labelled(COMPACT_TO, Ascii("TO "), s.recipient, t);
    var t1 := COMPACT_TO + (s.recipient + t);
    AmountThen(Ascii("SEND "), row, t1);
    var send := s.amount + ([SPACE] + (s.asset + t1));
    Assoc([10], Ascii("SEND "), send);
    Assoc(Ascii("ClearSig v4"), [10] + Ascii("SEND "), send);
    Assoc(COMPACT_START, COMPACT_SEND, send);
  }

  lemma CompactLastLines(q: Request, wallet: seq<byte>)
    requires q.body.SendBody?
    ensures More(CompactFoot(q, wallet), 4, [])
            == COMPACT_EXPIRES + (Expiry(q.common.expiresAt) + (COMPACT_POLICY + (HexText(q.common.policyCommitment)
               + (COMPACT_PROFILE + (COMPACT_LABEL + ([NEWLINE] + MARKER))))))
  {
    hide Ascii, COMPACT_EXPIRES, COMPACT_POLICY, COMPACT_PROFILE, More, HexText, NetworkName, Decimal.Dec, Expiry;
    var c, ls := q.common, CompactFoot(q, wallet);
    Peel(ls, 4, []);
    Peel(ls, 7, []);
    CompactLastLiterals();
    SignedIs(c.expiresAt);
    Nothing(MARKER);
    var t7 := [10] + MARKER;
    Labelled(COMPACT_PROFILE, Ascii("PROFILE "), COMPACT_LABEL, t7);
    var t6 := COMPACT_PROFILE + (COMPACT_LABEL + t7);
    Labelled(COMPACT_POLICY, Ascii("POLICY "), HexText(c.policyCommitment), t6);
    Labelled(COMPACT_EXPIRES, Ascii("EXPIRES "), Expiry(c.expiresAt), COMPACT_POLICY + (HexText(c.policyCommitment) + t6));
  }

  lemma CompactFootLines(q: Request, wallet: seq<byte>)
    requires q.body.SendBody?
    ensures More(CompactFoot(q, wallet), 0, []) == CompactFooter(ShownOf(q, wallet))
  {
    hide Ascii, COMPACT_NET, COMPACT_FROM, COMPACT_APPROVAL, COMPACT_PROPOSAL, COMPACT_EXPIRES, COMPACT_POLICY, COMPACT_PROFILE,
         More, HexText, AmountBytes, IdentityText, NetworkName, Network.DisplayName, DisplayAsset, Decimal.Dec, Expiry;
    var s, ls := ShownOf(q, wallet), CompactFoot(q, wallet);
    Peel(ls, 0, []);
    Peel(ls, 3, []);
    CompactFootLiterals();
    NameIs(q.common.network);
    CompactLastLines(q, wallet);
    var t4 := More(ls, 4, []);
    Labelled(COMPACT_PROPOSAL, Ascii("PROPOSAL "), Number(s.proposalIndex), t4);
    var t3 := COMPACT_PROPOSAL + (Number(s.proposalIndex) + t4);
    Labelled(COMPACT_APPROVAL, Ascii("APPROVAL "), Number(s.approvals), t3);
    var t2 := COMPACT_APPROVAL + (Number(s.approvals) + t3);
    Labelled(COMPACT_FROM, Ascii("FROM "), s.wallet, t2);
    Labelled(COMPACT_NET, Ascii("NET "), s.network, COMPACT_FROM + (s.wallet + t2));
  }

  lemma CompactOptionLines(q: Request, wallet: seq<byte>, t: seq<byte>)
    requires q.body.SendBody?
    ensures More(CompactOptions(q), 0, t) == CompactOptionsThen(ShownOf(q, wallet), t)
  {
    hide Ascii, COMPACT_ASSET, COMPACT_EXEC, More, AllZero, Hexed, HexText, TaggedThen, AmountBytes, IdentityText, Network.DisplayName;
    OptionLiterals();
    var id := if q.body.row.assetEncoding == Text then [] else [Ascii("ASSET ") + q.body.row.asset];
    var exec := if AllZero(q.body.executionCommitment) then [] else [Ascii("EXEC ") + HexText(q.body.executionCommitment)];
    MorePlus(id, exec, 0, t);
    CommitmentLines(COMPACT_EXEC, Ascii("EXEC "), q.body.executionCommitment, t);
    IdLines(COMPACT_ASSET, Ascii("ASSET "), q.body.row, TaggedThen(COMPACT_EXEC, Hexed(q.body.executionCommitment), t));
  }

  /** The compact document is these lines. */
  lemma CompactAsLines(q: Request, wallet: seq<byte>)
    requires Accepted(q) && q.body.SendBody?
    ensures CompactText(ShownOf(q, wallet)) == Lines(CompactFirst(q) + CompactOptions(q) + CompactFoot(q, wallet))
  {
    hide Accepted, CompactFirst, CompactOptions, CompactFoot, More, CompactLeadThen, CompactOptionsThen, CompactFooter, ShownOf;
    Named(q);
    var s := ShownOf(q, wallet);
    var first, options, foot := CompactFirst(q), CompactOptions(q), CompactFoot(q, wallet);
    assert |first| == 3 by { FirstLength(q); }
    MorePlus(first + options, foot, 1, []);
    CompactFootLines(q, wallet);
    MorePlus(first, options, 1, CompactFooter(s));
    CompactOptionLines(q, wallet, CompactFooter(s));
    CompactFirstLines(q, wallet, CompactOptionsThen(s, CompactFooter(s)));
  }

  lemma FirstLength(q: Request)
    requires q.body.SendBody?
    ensures |CompactFirst(q)| == 3
  {
  }

  /** The document of the intent's profile. */
  function DocumentLines(q: Request, wallet: seq<byte>): (r: seq<seq<byte>>)
    requires q.body.SendBody?
    ensures r != []
  {
    if q.common.profile == LedgerSolana then CompactFirst(q) + CompactOptions(q) + CompactFoot(q, wallet)
    else FullHead(q, wallet) + FullOptions(q) + PolicyLines(q) + RiskLines(q)
  }

  /** What the renderers leave in a buffer of some capacity: the lines of the profile's document if there is
      room, and otherwise the report that there is none; no document is too long for its profile. */
  lemma RendersLines(q: Request, wallet: seq<byte>, capacity: nat)
    requires Accepted(q) && q.body.SendBody? && ValidateVisibleAscii(wallet, 64, false).Ok?
    ensures var text := Rendering.DocumentText(q, wallet);
      && text == Lines(DocumentLines(q, wallet))
      && Rendering.Outcome(|text|, capacity, q.common.profile.MaxDocumentBytes())
         == (if |text| <= capacity then Ok(|text|) else Err(BufferTooSmall))
      && |text| <= if q.common.profile == LedgerSolana then 1024 else 1792
  {
    hide Accepted, ShownOf, FullText, CompactText, FullHead, FullOptions, PolicyLines, RiskLines, CompactFirst, CompactOptions,
         CompactFoot, Lines, Visible;
    FullAsLines(q, wallet);
    CompactAsLines(q, wallet);
    Rendering.DocumentsFit(q, wallet);
  }

  /** Hexadecimal letters, the high half of each byte first. */
  lemma {:induction false} HexAt(v: seq<byte>, i: nat)
    requires i < |v|
    ensures HexText(v)[2 * i] as char == "0123456789abcdef"[v[i] / 16] == Chars(HexText(v))[2 * i]
    ensures HexText(v)[2 * i + 1] as char == "0123456789abcdef"[v[i] % 16] == Chars(HexText(v))[2 * i + 1]
    decreases |v|
  {
    var n := |v| - 1;
    if i < n {
      HexAt(v[..n], i);
    } else {
      HexLetters(v[n] / 16);
      HexLetters(v[n] % 16);
    }
  }

  lemma HexLetters(d: nat)
    requires d < 16
    ensures HexLetter(d) as char == "0123456789abcdef"[d]
  {
  }

  /** A printed list of keys: their texts in order, with a comma and a space between them. */
  lemma {:induction false} KeysInOrder(key: Bytes32, keys: seq<Bytes32>)
    ensures KeyListText([key] + keys) == Base58.Base58Text(key) + if keys == [] then [] else [0x2c, 0x20] + KeyListText(keys)
  {
    hide Base58.Base58Text;
    var all := [key] + keys;
    var own := Base58.Base58Text(key);
    if keys == [] {
      assert all[..0] == [];
      Nothing(own);
    } else {
      var n := |keys| - 1;
      assert all[..|all| - 1] == [key] + keys[..n];
      KeysInOrder(key, keys[..n]);
      assert Ascii(", ") == [0x2c, 0x20];
      var last := Base58.Base58Text(keys[n]);
      Assoc(own, [0x2c, 0x20] + KeyListText(keys[..n]) + Separator(n), last);
      Assoc(own, [0x2c, 0x20] + KeyListText(keys[..n]), Separator(n));
      Assoc([0x2c, 0x20], KeyListText(keys[..n]), Separator(n));
      Assoc([0x2c, 0x20], KeyListText(keys[..n]) + Separator(n), last);
      Nothing(own);
      Nothing(last);
      Nothing([0x2c, 0x20] + KeyListText(keys[..n]));
    }
  }
}

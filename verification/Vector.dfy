/** The normative transfer vector, for any replay labels and policy: its canonical bytes, its document and
    what is hashed for it. The recipient's text is left as the base58 text of its key. */
module Vector {
  import opened Base
  import opened Model
  import opened Wire
  import opened Payload
  import opened Documents
  import opened DocumentSchema
  import Acceptance
  import Base58
  import Calendar
  import CodecLaws
  import Decimal
  import Io

  function Same(b: byte, n: nat): (r: seq<byte>)
    ensures |r| == n && forall i :: 0 <= i < n ==> r[i] == b
  {
    seq(n, i => b)
  }

  /** 0.3 SOL on Solana Devnet, proposal 6, two approvals. */
  function Transfer(actionId: Bytes32, nonce: Bytes32, policy: Bytes32): Request {
    Request(CommonFields(Full, SolanaDevnet, 6, Same(7, 32), Same(8, 32), actionId, nonce, 1_784_000_000, policy, 2),
            SendBody(TransferRow(SolanaPubkey, Same(12, 32), Text, Ascii("SOL"), 300_000_000, 9, Ascii("SOL")), ZERO32, None),
            Ascii("Treasury payment"))
  }

  lemma Sol()
    ensures Ascii("SOL") == [0x53, 0x4f, 0x4c]
  {
  }

  lemma Reason()
    ensures Acceptance.Plain(Ascii("Treasury payment"), 0, 160) && |Ascii("Treasury payment")| == 16
  {
  }

  lemma TransferAccepted(actionId: Bytes32, nonce: Bytes32, policy: Bytes32)
    ensures Accepted(Transfer(actionId, nonce, policy))
  {
    hide Ascii, Accepted;
    Sol();
    Reason();
    Acceptance.AcceptedIff(Transfer(actionId, nonce, policy));
  }

  lemma {:induction false} NoWord(n: nat)
    ensures LE(0, n) == Same(0, n)
  {
    if n > 0 {
      NoWord(n - 1);
      assert [0] + Same(0, n - 1) == Same(0, n);
    }
  }

  lemma Words()
    ensures LE(6, 8) == [6] + Same(0, 7) && LE(1_784_000_000, 8) == [0, 0xae, 0x55, 0x6a] + Same(0, 4)
    ensures LE(300_000_000, 16) == [0, 0xa3, 0xe1, 0x11] + Same(0, 12)
  {
    hide Same;
    NoWord(7);
    NoWord(4);
    NoWord(12);
    FourBytes(1_784_000_000, 8, 0, 0xae, 0x55, 0x6a);
    FourBytes(300_000_000, 16, 0, 0xa3, 0xe1, 0x11);
  }

  lemma FourBytes(v: nat, n: nat, a: byte, b: byte, c: byte, d: byte)
    requires n >= 4 && v == a + 0x100 * b + 0x1_0000 * c + 0x100_0000 * d
    ensures LE(v, n) == [a, b, c, d] + LE(0, n - 4)
  {
    DivModUnique(b + 0x100 * c + 0x1_0000 * d, a, 256);
    DivModUnique(c + 0x100 * d, b, 256);
    DivModUnique(d, c, 256);
    assert LE(v, n) == [a] + LE(b + 0x100 * c + 0x1_0000 * d, n - 1);
    assert LE(b + 0x100 * c + 0x1_0000 * d, n - 1) == [b] + LE(c + 0x100 * d, n - 2);
    assert LE(c + 0x100 * d, n - 2) == [c] + LE(d, n - 3);
    assert LE(d, n - 3) == [d] + LE(0, n - 4);
  }

  lemma Lengths()
    ensures LE(32, 2) == [32, 0] && LE(3, 2) == [3, 0] && LE(16, 2) == [16, 0]
    ensures LE(32, 4) == [32, 0, 0, 0] && LE(3, 4) == [3, 0, 0, 0] && LE(33, 4) == [33, 0, 0, 0]
  {
  }

  /** The canonical bytes, which parse back to the transfer. */
  lemma CanonicalBytes(actionId: Bytes32, nonce: Bytes32, policy: Bytes32)
    ensures Serialize(Transfer(actionId, nonce, policy)) ==
      Ascii("CSIGINT4") + ([4] + ([1] + ([1] + ([1] + ([6] + Same(0, 7) + (Same(7, 32) + (Same(8, 32)
      + (actionId + (nonce + ([0, 0xae, 0x55, 0x6a] + Same(0, 4) + (policy + ([2]
      + ([2] + ([32, 0] + (Same(12, 32) + ([1] + ([3, 0] + (Ascii("SOL")
      + ([0, 0xa3, 0xe1, 0x11] + Same(0, 12) + ([9] + ([3, 0] + (Ascii("SOL")
      + (ZERO32 + ([0] + ([16, 0] + (Ascii("Treasury payment") + []))))))))))))))))))))))))))
    ensures Parse(Serialize(Transfer(actionId, nonce, policy))) == Ok(Transfer(actionId, nonce, policy))
  {
    hide LE, Ascii, Zeros, Accepted, Parse;
    Words();
    Lengths();
    Sol();
    Reason();
    TransferAccepted(actionId, nonce, policy);
    CodecLaws.RowlessFits(Transfer(actionId, nonce, policy));
    CodecLaws.ParseIffSerialized(Serialize(Transfer(actionId, nonce, policy)), Transfer(actionId, nonce, policy));
  }

  lemma ThreeTenths()
    ensures Decimal.AmountText(300_000_000, 9) == "0.3"
  {
    assert Decimal.AmountText(3, 1) == "0.3";
    assert Pow(10, 9) == 1_000_000_000 && Pow(10, 1) == 10;
    Decimal.AmountTextIff(300_000_000, 9, 3, 1);
  }

  lemma NoOptions(q: Request)
    requires q.body.SendBody? && q.body.row.assetEncoding == Text && q.body.executionCommitment == ZERO32 && q.body.fiat == None
    ensures FullOptions(q) == []
  {
  }

  /** The document, line by line. */
  function Document(policy: Bytes32): (r: seq<seq<byte>>)
    ensures r != []
  {
    [Ascii("ClearSig Approval"), [],
     Ascii("ACTION"), Ascii("Send ") + (Ascii("0.3") + (Ascii(" ") + Ascii("SOL"))), [],
     Ascii("DETAILS"), Ascii("From wallet: ") + Ascii("Team treasury"), Ascii("Network: ") + Ascii("Solana Devnet"),
     Ascii("Amount: ") + (Ascii("0.3") + (Ascii(" ") + Ascii("SOL"))), Ascii("To: ") + Base58.Base58Text(Same(12, 32)), [],
     Ascii("POLICY"), Ascii("Approval: ") + (Ascii("2") + Ascii(" signatures required")),
     Ascii("Execution: Exact canonical payload, ") + Ascii("policy, and timelock enforced onchain"),
     Ascii("Policy commitment: ") + Io.HexText(policy), Ascii("Display profile: ") + Ascii("clearsig-full-v2@1"),
     Ascii("Protocol: clearsig-intent-v4@1"), [],
     Ascii("RISK"), Ascii("Category: ") + Ascii("Funds movement"),
     Ascii("Signer check: ") + (Ascii("Verify amount, asset, ") + Ascii("network, and full destination")), [],
     Ascii("PURPOSE"), Ascii("Treasury payment")]
  }

  /** The full document. */
  lemma FullDocument(actionId: Bytes32, nonce: Bytes32, policy: Bytes32)
    ensures FullText(ShownOf(Transfer(actionId, nonce, policy), Ascii("Team treasury"))) == Lines(Document(policy))
  {
    hide Ascii, Accepted, Base58.Base58Text, Io.HexText, Lines, FullText, Zeros, Decimal.AmountText, ShownOf;
    var q := Transfer(actionId, nonce, policy);
    TransferAccepted(actionId, nonce, policy);
    FullAsLines(q, Ascii("Team treasury"));
    ThreeTenths();
    Sol();
    Reason();
    NoOptions(q);
    assert Decimal.Dec(2) == "2";
    NameIs(SolanaDevnet);
    var head := [
      Ascii("ClearSig Approval"), [],
      Ascii("ACTION"), Ascii("Send ") + (Ascii("0.3") + (Ascii(" ") + Ascii("SOL"))), [],
      Ascii("DETAILS"), Ascii("From wallet: ") + Ascii("Team treasury"), Ascii("Network: ") + Ascii("Solana Devnet"),
      Ascii("Amount: ") + (Ascii("0.3") + (Ascii(" ") + Ascii("SOL"))), Ascii("To: ") + Base58.Base58Text(Same(12, 32))];
    assert FullHead(q, Ascii("Team treasury")) == head;
    var policyLines := [[],
      Ascii("POLICY"), Ascii("Approval: ") + (Ascii("2") + Ascii(" signatures required")),
      Ascii("Execution: Exact canonical payload, ") + Ascii("policy, and timelock enforced onchain"),
      Ascii("Policy commitment: ") + Io.HexText(policy), Ascii("Display profile: ") + Ascii("clearsig-full-v2@1"),
      Ascii("Protocol: clearsig-intent-v4@1")];
    assert PolicyLines(q) == policyLines;
    var riskLines := [[],
      Ascii("RISK"), Ascii("Category: ") + Ascii("Funds movement"),
      Ascii("Signer check: ") + (Ascii("Verify amount, asset, ") + Ascii("network, and full destination")), [],
      Ascii("PURPOSE"), Ascii("Treasury payment")];
    assert RiskLines(q) == riskLines;
    assert head + [] + policyLines + riskLines == Document(policy);
  }

  /** The preimage of the payload hash. */
  lemma PayloadPreimage(sha: Sha, actionId: Bytes32, nonce: Bytes32, policy: Bytes32)
    ensures var q := Transfer(actionId, nonce, policy);
      Preimage(q.body.Kind(), ContentOf(sha, q.body)) ==
      [33, 0, 0, 0] + (Ascii("clearsig:policy-engine:v2:payload") + ([1]
      + ([32, 0, 0, 0] + (Same(12, 32) + ([3, 0, 0, 0] + (Ascii("SOL") + ([0, 0xa3, 0xe1, 0x11] + Same(0, 12) + [])))))))
  {
    hide LE, Ascii, Zeros, Prefixed;
    Words();
    Sol();
    var q := Transfer(actionId, nonce, policy);
    var amount := LE(300_000_000, 16) + [];
    PrefixIs(Ascii("SOL"), amount);
    PrefixIs(Same(12, 32), Prefixed(Ascii("SOL"), amount));
    DomainLength();
    PrefixIs(PAYLOAD_DOMAIN, [1] + Prefixed(Same(12, 32), Prefixed(Ascii("SOL"), amount)));
    Lengths();
  }

  lemma PrefixIs(v: seq<byte>, t: seq<byte>)
    requires |v| < 0x1_0000_0000
    ensures Prefixed(v, t) == LE(|v|, 4) + (v + t)
  {
    hide LE;
    DivModUnique(0, |v|, 0x1_0000_0000);
  }

  lemma DomainLength()
    ensures |Ascii("clearsig:policy-engine:v2:payload")| == 33
  {
  }

  lemma ExpiryStamp()
    ensures Calendar.StampOf(1_783_426_450) == Calendar.Stamp(Calendar.Date(2026, 7, 7), 12, 14, 10)
  {
    hide Calendar.StampOf, Calendar.CivilFromDays;
    Calendar.StampExact(1_783_426_450);
    SeventhOfJuly();
  }

  lemma SeventhOfJuly()
    ensures Calendar.CivilFromDays(20_641) == Calendar.Date(2026, 7, 7)
  {
  }

  lemma Pair(a: nat, b: nat)
    requires a < 10 && b < 10
    ensures Decimal.Padded(10 * a + b, 2) == [Decimal.Digit(a)] + [Decimal.Digit(b)]
  {
    hide Decimal.Digit;
    assert (10 * a + b) / 10 == a && (10 * a + b) % 10 == b && a / 10 == 0 && a % 10 == a;
    assert Decimal.Padded(a, 1) == "" + [Decimal.Digit(a)];
    Nothing([Decimal.Digit(a)]);
  }

  lemma Fields()
    ensures Decimal.Padded(2026, 4) == "2026" && Decimal.Padded(7, 2) == "07"
    ensures Decimal.Padded(12, 2) == "12" && Decimal.Padded(14, 2) == "14" && Decimal.Padded(10, 2) == "10"
  {
    Year();
    hide Decimal.Padded;
    Pair(0, 7);
    Pair(1, 2);
    Pair(1, 4);
    Pair(1, 0);
  }

  lemma Year()
    ensures Decimal.Padded(2026, 4) == "2026"
  {
    assert Decimal.Padded(20, 2) == "20";
  }

  /** The expiry text of the API's own example. */
  lemma ExpiryText()
    ensures Calendar.FormatExpiry(1_783_426_450) == Some("2026-07-07 12:14:10")
  {
    hide Calendar.StampOf, Decimal.Padded;
    ExpiryStamp();
    Fields();
    assert "2026" + ("-" + ("07" + ("-" + ("07" + (" " + ("12" + (":" + ("14" + (":" + "10"))))))))) == "2026-07-07 12:14:10";
  }
}

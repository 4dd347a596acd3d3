/** The renderers of a single transfer: what they push into the signer's buffer, and that it always fits. */
module Rendering {
  import opened Base
  import opened Model
  import opened Io
  import opened Documents
  import Base58
  import Codec
  import CodecLaws
  import Decimal
  import Wire

  // ----- The full document -----

  lemma AppendLead(b: seq<byte>, s: Shown)
    ensures b + LeadThen(s, []) == b + SEND + s.amount + [SPACE] + s.asset + FROM_WALLET + s.wallet
  {
    hide Ascii, SEND, FROM_WALLET;
    Nothing(s.wallet);
    Regroup(b, SEND, s.amount, [SPACE], s.asset + (FROM_WALLET + s.wallet));
    Assoc(b + SEND + s.amount + [SPACE], s.asset, FROM_WALLET + s.wallet);
    Assoc(b + SEND + s.amount + [SPACE] + s.asset, FROM_WALLET, s.wallet);
  }

  lemma AppendDetails(b: seq<byte>, s: Shown)
    ensures b + DetailsThen(s, []) ==
      b + NETWORK + s.network + AMOUNT + s.amount + [SPACE] + s.asset + TO + s.recipient
  {
    hide Ascii, NETWORK, AMOUNT, TO;
    Nothing(s.recipient);
    var b3 := b + NETWORK + s.network + AMOUNT;
    Regroup(b, NETWORK, s.network, AMOUNT, s.amount + ([SPACE] + (s.asset + (TO + s.recipient))));
    Regroup(b3, s.amount, [SPACE], s.asset, TO + s.recipient);
    Assoc(b3 + s.amount + [SPACE] + s.asset, TO, s.recipient);
  }

  lemma AppendTagged(b: seq<byte>, tag: seq<byte>, value: seq<byte>)
    ensures b + TaggedThen(tag, Some(value), []) == b + tag + value
  {
    Nothing(value);
    Assoc(b, tag, value);
  }

  lemma AppendEstimate(b: seq<byte>, f: FiatEstimate)
    ensures b + EstimateThen(Some(f), []) ==
      b + ESTIMATED + f.amount + [SPACE] + f.currency + INFORMATIONAL + PRICE_SOURCE + f.source + PRICE_OBSERVED
      + Number(f.observedAt) + UNIX_SECONDS
  {
    hide Ascii, Number, ESTIMATED, INFORMATIONAL, PRICE_SOURCE, PRICE_OBSERVED, UNIX_SECONDS;
    var last := PRICE_OBSERVED + (Number(f.observedAt) + UNIX_SECONDS);
    Nothing(UNIX_SECONDS);
    var b3 := b + ESTIMATED + f.amount + [SPACE];
    Regroup(b, ESTIMATED, f.amount, [SPACE], f.currency + (INFORMATIONAL + (PRICE_SOURCE + (f.source + last))));
    var b6 := b3 + f.currency + INFORMATIONAL + PRICE_SOURCE;
    Regroup(b3, f.currency, INFORMATIONAL, PRICE_SOURCE, f.source + last);
    Regroup(b6, f.source, PRICE_OBSERVED, Number(f.observedAt), UNIX_SECONDS);
  }

  lemma FooterCloses(s: Shown)
    ensures ReviewFooter(s) == APPROVAL + (Number(s.approvals) + (Signatures(s.approvals) + (EXECUTION
      + (POLICY_COMMITMENT + (HexText(s.policy) + Closing(s.purpose))))))
  {
    hide Ascii, Number, HexText, Signatures, APPROVAL, EXECUTION, POLICY_COMMITMENT, DISPLAY_PROFILE, FULL_LABEL, MARKER,
      CATEGORY, SEND_CATEGORY, SIGNER_CHECK, SEND_CHECK, PURPOSE;
  }

  lemma AppendPolicy(b: seq<byte>, s: Shown)
    ensures b + ReviewFooter(s) ==
      b + APPROVAL + Number(s.approvals) + Signatures(s.approvals) + EXECUTION + POLICY_COMMITMENT + HexText(s.policy)
      + Closing(s.purpose)
  {
    hide Ascii, Number, HexText, Signatures, Closing, APPROVAL, EXECUTION, POLICY_COMMITMENT;
    FooterCloses(s);
    var b3 := b + APPROVAL + Number(s.approvals) + Signatures(s.approvals);
    Regroup(b, APPROVAL, Number(s.approvals), Signatures(s.approvals),
      EXECUTION + (POLICY_COMMITMENT + (HexText(s.policy) + Closing(s.purpose))));
    Regroup(b3, EXECUTION, POLICY_COMMITMENT, HexText(s.policy), Closing(s.purpose));
  }

  function Closing(purpose: seq<byte>): seq<byte> {
    DISPLAY_PROFILE + (FULL_LABEL + ([NEWLINE] + (MARKER + (CATEGORY + (SEND_CATEGORY + (SIGNER_CHECK + (SEND_CHECK
    + (PURPOSE + purpose))))))))
  }

  lemma AppendClosing(b: seq<byte>, purpose: seq<byte>)
    ensures b + Closing(purpose) ==
      b + DISPLAY_PROFILE + FULL_LABEL + [NEWLINE] + MARKER + CATEGORY + SEND_CATEGORY + SIGNER_CHECK + SEND_CHECK
      + PURPOSE + purpose
  {
    hide Ascii, DISPLAY_PROFILE, FULL_LABEL, MARKER, CATEGORY, SEND_CATEGORY, SIGNER_CHECK, SEND_CHECK, PURPOSE;
    var last := SEND_CHECK + (PURPOSE + purpose);
    var b3 := b + DISPLAY_PROFILE + FULL_LABEL + [NEWLINE];
    Regroup(b, DISPLAY_PROFILE, FULL_LABEL, [NEWLINE], MARKER + (CATEGORY + (SEND_CATEGORY + (SIGNER_CHECK + last))));
    var b6 := b3 + MARKER + CATEGORY + SEND_CATEGORY;
    Regroup(b3, MARKER, CATEGORY, SEND_CATEGORY, SIGNER_CHECK + last);
    Regroup(b6, SIGNER_CHECK, SEND_CHECK, PURPOSE, purpose);
  }

  lemma FullSplit(s: Shown)
    ensures FullText(s) == LeadThen(s, []) + DetailsThen(s, [])
      + (TaggedThen(ASSET_ID, s.assetId, []) + TaggedThen(TEMPLATE, Hexed(s.commitment), []) + EstimateThen(s.fiat, []))
      + ReviewFooter(s)
  {
    hide Ascii, LeadThen, DetailsThen, TaggedThen, EstimateThen, ReviewFooter, Hexed, ASSET_ID, TEMPLATE;
    var f, h := ReviewFooter(s), Hexed(s.commitment);
    var lead, details := LeadThen(s, []), DetailsThen(s, []);
    var id, c, e := TaggedThen(ASSET_ID, s.assetId, []), TaggedThen(TEMPLATE, h, []), EstimateThen(s.fiat, []);
    EstimateSplit(s.fiat, f);
    TaggedSplit(TEMPLATE, h, e + f);
    TaggedSplit(ASSET_ID, s.assetId, c + (e + f));
    DetailsSplit(s, OptionsThen(s, f));
    LeadSplit(s, DetailsThen(s, OptionsThen(s, f)));
    Assoc(lead, details, id + (c + (e + f)));
    Assoc(id, c, e + f);
    Assoc(id + c, e, f);
    Assoc(lead + details, id + c + e, f);
  }

  lemma LeadSplit(s: Shown, t: seq<byte>)
    ensures LeadThen(s, t) == LeadThen(s, []) + t
  {
    hide Ascii, SEND, FROM_WALLET;
    Nothing(s.wallet);
    TailOut(s.amount, [SPACE], s.asset, FROM_WALLET + s.wallet, t);
    Assoc(FROM_WALLET, s.wallet, t);
    Assoc(SEND, s.amount + ([SPACE] + (s.asset + (FROM_WALLET + s.wallet))), t);
  }

  lemma DetailsSplit(s: Shown, t: seq<byte>)
    ensures DetailsThen(s, t) == DetailsThen(s, []) + t
  {
    hide Ascii, NETWORK, AMOUNT, TO;
    Nothing(s.recipient);
    Assoc(TO, s.recipient, t);
    var last := s.amount + ([SPACE] + (s.asset + (TO + s.recipient)));
    TailOut(s.amount, [SPACE], s.asset, TO + s.recipient, t);
    TailOut(NETWORK, s.network, AMOUNT, last, t);
  }

  lemma TaggedSplit(tag: seq<byte>, value: Option<seq<byte>>, t: seq<byte>)
    ensures TaggedThen(tag, value, t) == TaggedThen(tag, value, []) + t
  {
    if value.Some? {
      Nothing(value.value);
      Assoc(value.value, [], t);
      Assoc(tag, value.value, t);
    } else {
      Nothing(t);
    }
  }

  lemma EstimateSplit(fiat: Option<FiatEstimate>, t: seq<byte>)
    ensures EstimateThen(fiat, t) == EstimateThen(fiat, []) + t
  {
    hide Ascii, Number, ESTIMATED, INFORMATIONAL, PRICE_SOURCE, PRICE_OBSERVED, UNIX_SECONDS;
    if fiat.None? {
      Nothing(t);
    } else {
      var f := fiat.value;
      var observed := Number(f.observedAt) + UNIX_SECONDS;
      Nothing(UNIX_SECONDS);
      Assoc(Number(f.observedAt), UNIX_SECONDS, t);
      TailOut(PRICE_SOURCE, f.source, PRICE_OBSERVED, observed, t);
      var priced := PRICE_SOURCE + (f.source + (PRICE_OBSERVED + observed));
      Assoc(INFORMATIONAL, priced, t);
      Assoc(f.currency, INFORMATIONAL + priced, t);
      TailOut(ESTIMATED, f.amount, [SPACE], f.currency + (INFORMATIONAL + priced), t);
    }
  }

  method WriteLead(w: Writer, row: TransferRow, wallet: seq<byte>, ghost s: Shown) returns (r: Check)
    requires w.Valid() && ValidateRow(row).Ok?
    requires s.amount == AmountBytes(row) && s.asset == DisplayAsset(row) && s.wallet == wallet
    modifies w`len, w.out
    ensures w.Valid() && w.Wrote(old(w.Contents()), LeadThen(s, []), r)
  {
    hide Writer.Contents, SEND, FROM_WALLET;
    hide Ascii, LeadThen, Visible, Decimal.AmountText;
    AppendLead(w.Contents(), s);
    var _ :- w.Push(SEND);
    var _ :- w.Amount(row.rawAmount, row.decimals);
    var _ :- w.Push([SPACE]);
    var _ :- w.Push(DisplayAsset(row));
    var _ :- w.Push(FROM_WALLET);
    r := w.Push(wallet);
  }

  method WriteDetails(w: Writer, row: TransferRow, network: Network, ghost s: Shown) returns (r: Check)
    requires w.Valid() && ValidateRow(row).Ok?
    requires s.amount == AmountBytes(row) && s.asset == DisplayAsset(row) && s.network == Ascii(network.DisplayName())
    requires s.recipient == IdentityText(row.recipientEncoding, row.recipient)
    modifies w`len, w.out
    ensures w.Valid() && w.Wrote(old(w.Contents()), DetailsThen(s, []), r)
  {
    hide Writer.Contents, NETWORK, AMOUNT, TO;
    hide Ascii, DetailsThen, Visible, Decimal.AmountText, Network.DisplayName, Base58.Base58Text;
    AppendDetails(w.Contents(), s);
    var _ :- w.Push(NETWORK);
    var _ :- w.Push(Ascii(network.DisplayName()));
    var _ :- w.Push(AMOUNT);
    var _ :- w.Amount(row.rawAmount, row.decimals);
    var _ :- w.Push([SPACE]);
    var _ :- w.Push(DisplayAsset(row));
    var _ :- w.Push(TO);
    KeyHasText(row);
    r := w.Identity(row.recipientEncoding, row.recipient);
  }

  lemma KeyHasText(row: TransferRow)
    requires ValidateRow(row).Ok?
    ensures row.recipientEncoding.SolanaPubkey? ==> |Base58.Base58Text(row.recipient)| <= 44
  {
    hide Visible, Base58.Base58Text;
    if row.recipientEncoding.SolanaPubkey? {
      Base58.KeyFits(row.recipient);
    }
  }

  method WriteAssetId(w: Writer, row: TransferRow, tag: seq<byte>, ghost s: Shown) returns (r: Check)
    requires w.Valid() && s.assetId == if row.assetEncoding.Text? then None else Some(row.asset)
    modifies w`len, w.out
    ensures w.Valid() && w.Wrote(old(w.Contents()), TaggedThen(tag, s.assetId, []), r)
  {
    if !row.assetEncoding.Text? {
      AppendTagged(w.Contents(), tag, row.asset);
      var _ :- w.Push(tag);
      r := w.Push(row.asset);
    } else {
      assert w.Contents() + [] == w.Contents();
      r := Ok(());
    }
  }

  method WriteCommitment(w: Writer, commitment: Bytes32, tag: seq<byte>) returns (r: Check)
    requires w.Valid()
    modifies w`len, w.out
    ensures w.Valid() && w.Wrote(old(w.Contents()), TaggedThen(tag, Hexed(commitment), []), r)
  {
    hide HexText, TaggedThen;
    if !IsZero(commitment) {
      AppendTagged(w.Contents(), tag, HexText(commitment));
      var _ :- w.Push(tag);
      r := w.Hex(commitment);
    } else {
      NothingTagged(tag);
      assert w.Contents() + [] == w.Contents();
      r := Ok(());
    }
  }

  lemma NothingTagged(tag: seq<byte>)
    ensures TaggedThen(tag, None, []) == []
  {
  }

  /** `fiat_estimate()` of a parsed transfer decodes the kept slice again. */
  function EstimateOf(encoded: seq<byte>): (r: Result<Option<FiatEstimate>, Error>)
    ensures r.Ok? ==> ValidateOptionalFiat(r.value).Ok?
  {
    hide ValidateFiat, Wire.FiatThen;
    var (fiat, rest) :- Wire.ParseFiat(encoded);
    var _ :- Need(rest == [], TrailingBytes);
    Ok(fiat)
  }

  method ReadEstimate(encoded: seq<byte>) returns (r: Result<Option<FiatEstimate>, Error>)
    ensures r == EstimateOf(encoded)
  {
    hide Wire.ParseFiat;
    var reader := new Reader(encoded);
    var estimate :- Codec.ReadFiat(reader);
    if reader.remaining != [] {
      return Err(TrailingBytes);
    }
    return Ok(estimate);
  }

  method WriteEstimate(w: Writer, encoded: seq<byte>) returns (r: Check)
    requires w.Valid()
    modifies w`len, w.out
    ensures w.Valid()
    ensures match EstimateOf(encoded)
            case Err(e) => r == Err(e)
            case Ok(fiat) => w.Wrote(old(w.Contents()), EstimateThen(fiat, []), r)
  {
    hide Writer.Contents, EstimateThen, EstimateOf, Visible, FiatAmountText;
    var estimate :- ReadEstimate(encoded);
    if estimate.None? {
      NoEstimate();
      assert w.Contents() + [] == w.Contents();
      return Ok(());
    }
    r := WriteEstimateLines(w, estimate.value);
  }

  method WriteEstimateLines(w: Writer, f: FiatEstimate) returns (r: Check)
    requires w.Valid() && f.observedAt > 0
    modifies w`len, w.out
    ensures w.Valid() && w.Wrote(old(w.Contents()), EstimateThen(Some(f), []), r)
  {
    hide Writer.Contents, ESTIMATED, INFORMATIONAL, PRICE_SOURCE, PRICE_OBSERVED, UNIX_SECONDS, Ascii, EstimateThen, Decimal.Dec;
    AppendEstimate(w.Contents(), f);
    var _ :- w.Push(ESTIMATED);
    var _ :- w.Push(f.amount);
    var _ :- w.Push([SPACE]);
    var _ :- w.Push(f.currency);
    var _ :- w.Push(INFORMATIONAL);
    var _ :- w.Push(PRICE_SOURCE);
    var _ :- w.Push(f.source);
    var _ :- w.Push(PRICE_OBSERVED);
    var _ :- w.DecimalU128(f.observedAt);
    r := w.Push(UNIX_SECONDS);
  }

  lemma NoEstimate()
    ensures EstimateThen(None, []) == []
  {
  }

  /** The lines that only some transfers have. */
  method WriteOptions(w: Writer, action: Action, ghost s: Shown) returns (r: Check)
    requires w.Valid() && action.TransferAction? && EstimateOf(action.encodedFiatEstimate) == Ok(s.fiat)
    requires s.assetId == if action.row.assetEncoding.Text? then None else Some(action.row.asset)
    requires s.commitment == action.executionCommitment
    modifies w`len, w.out
    ensures w.Valid() && w.Wrote(old(w.Contents()), TaggedThen(ASSET_ID, s.assetId, [])
      + TaggedThen(TEMPLATE, Hexed(s.commitment), []) + EstimateThen(s.fiat, []), r)
  {
    hide Writer.Contents, ASSET_ID, TEMPLATE, TaggedThen, EstimateThen, Hexed, EstimateOf;
    ghost var b := w.Contents();
    ghost var x, y, z := TaggedThen(ASSET_ID, s.assetId, []), TaggedThen(TEMPLATE, Hexed(s.commitment), []), EstimateThen(s.fiat, []);
    assert b + (x + y + z) == b + x + y + z;
    var _ :- WriteAssetId(w, action.row, ASSET_ID, s);
    var _ :- WriteCommitment(w, action.executionCommitment, TEMPLATE);
    r := WriteEstimate(w, action.encodedFiatEstimate);
  }

  /** `write_review_footer` for a send. */
  method WriteReviewFooter(w: Writer, common: CommonFields, reason: seq<byte>, ghost s: Shown) returns (r: Check)
    requires w.Valid() && s.approvals == common.approvalRequired && s.policy == common.policyCommitment
    requires s.purpose == if reason == [] then NOT_PROVIDED else reason
    modifies w`len, w.out
    ensures w.Valid() && w.Wrote(old(w.Contents()), ReviewFooter(s), r)
  {
    hide Writer.Contents, APPROVAL, SIGNATURE, SIGNATURES, EXECUTION, POLICY_COMMITMENT, NOT_PROVIDED;
    hide Ascii, ReviewFooter, HexText, Decimal.Dec, Closing;
    AppendPolicy(w.Contents(), s);
    var _ :- w.Push(APPROVAL);
    var _ :- w.DecimalU128(common.approvalRequired);
    if common.approvalRequired == 1 {
      var _ :- w.Push(SIGNATURE);
    } else {
      var _ :- w.Push(SIGNATURES);
    }
    var _ :- w.Push(EXECUTION);
    var _ :- w.Push(POLICY_COMMITMENT);
    var _ :- w.Hex(common.policyCommitment);
    r := WriteClosing(w, reason);
  }

  method WriteClosing(w: Writer, reason: seq<byte>) returns (r: Check)
    requires w.Valid()
    modifies w`len, w.out
    ensures w.Valid() && w.Wrote(old(w.Contents()), Closing(if reason == [] then NOT_PROVIDED else reason), r)
  {
    hide Writer.Contents, DISPLAY_PROFILE, FULL_LABEL, MARKER, CATEGORY, SEND_CATEGORY, SIGNER_CHECK, SEND_CHECK, PURPOSE, NOT_PROVIDED;
    hide Ascii, Closing;
    AppendClosing(w.Contents(), if reason == [] then NOT_PROVIDED else reason);
    var _ :- w.Push(DISPLAY_PROFILE);
    var _ :- w.Push(FULL_LABEL);
    var _ :- w.Push([NEWLINE]);
    var _ :- w.Push(MARKER);
    var _ :- w.Push(CATEGORY);
    var _ :- w.Push(SEND_CATEGORY);
    var _ :- w.Push(SIGNER_CHECK);
    var _ :- w.Push(SEND_CHECK);
    var _ :- w.Push(PURPOSE);
    if reason == [] {
      r := w.Push(NOT_PROVIDED);
    } else {
      r := w.Push(reason);
    }
  }

  // ----- The compact document -----

  lemma AppendCompactLead(b: seq<byte>, s: Shown)
    ensures b + CompactLeadThen(s, []) ==
      b + COMPACT_START + COMPACT_SEND + s.amount + [SPACE] + s.asset + COMPACT_TO + s.recipient
  {
    hide Ascii, COMPACT_START, COMPACT_SEND, COMPACT_TO;
    Nothing(s.recipient);
    Regroup(b, COMPACT_START, COMPACT_SEND, s.amount, [SPACE] + (s.asset + (COMPACT_TO + s.recipient)));
    Regroup(b + COMPACT_START + COMPACT_SEND + s.amount, [SPACE], s.asset, COMPACT_TO, s.recipient);
  }

  lemma CompactFooterCloses(s: Shown)
    ensures CompactFooter(s) == COMPACT_NET + (s.network + (COMPACT_FROM + (s.wallet + (COMPACT_APPROVAL
      + (Number(s.approvals) + (COMPACT_PROPOSAL + (Number(s.proposalIndex) + CompactClosing(s))))))))
  {
    hide Ascii, Number, HexText, Expiry, COMPACT_NET, COMPACT_FROM, COMPACT_APPROVAL, COMPACT_PROPOSAL, COMPACT_EXPIRES,
      COMPACT_POLICY, COMPACT_PROFILE, COMPACT_LABEL, MARKER;
  }

  lemma AppendCompactFooter(b: seq<byte>, s: Shown)
    ensures b + CompactFooter(s) == b + COMPACT_NET + s.network + COMPACT_FROM + s.wallet + COMPACT_APPROVAL
      + Number(s.approvals) + COMPACT_PROPOSAL + Number(s.proposalIndex) + CompactClosing(s)
  {
    hide Ascii, Number, CompactClosing, COMPACT_NET, COMPACT_FROM, COMPACT_APPROVAL, COMPACT_PROPOSAL;
    CompactFooterCloses(s);
    var last := COMPACT_PROPOSAL + (Number(s.proposalIndex) + CompactClosing(s));
    Regroup(b, COMPACT_NET, s.network, COMPACT_FROM, s.wallet + (COMPACT_APPROVAL + (Number(s.approvals) + last)));
    var b3 := b + COMPACT_NET + s.network + COMPACT_FROM;
    Regroup(b3, s.wallet, COMPACT_APPROVAL, Number(s.approvals), last);
    var b6 := b3 + s.wallet + COMPACT_APPROVAL + Number(s.approvals);
    Assoc(b6, COMPACT_PROPOSAL, Number(s.proposalIndex) + CompactClosing(s));
    Assoc(b6 + COMPACT_PROPOSAL, Number(s.proposalIndex), CompactClosing(s));
  }

  function CompactClosing(s: Shown): seq<byte> {
    COMPACT_EXPIRES + (Expiry(s.expiresAt) + (COMPACT_POLICY + (HexText(s.policy) + (COMPACT_PROFILE + (COMPACT_LABEL
    + ([NEWLINE] + MARKER))))))
  }

  lemma AppendCompactClosing(b: seq<byte>, s: Shown)
    ensures b + CompactClosing(s) == b + COMPACT_EXPIRES + Expiry(s.expiresAt) + COMPACT_POLICY + HexText(s.policy)
      + COMPACT_PROFILE + COMPACT_LABEL + [NEWLINE] + MARKER
  {
    hide Ascii, Expiry, HexText, COMPACT_EXPIRES, COMPACT_POLICY, COMPACT_PROFILE, COMPACT_LABEL, MARKER;
    var b3 := b + COMPACT_EXPIRES + Expiry(s.expiresAt) + COMPACT_POLICY;
    Regroup(b, COMPACT_EXPIRES, Expiry(s.expiresAt), COMPACT_POLICY,
      HexText(s.policy) + (COMPACT_PROFILE + (COMPACT_LABEL + ([NEWLINE] + MARKER))));
    Regroup(b3, HexText(s.policy), COMPACT_PROFILE, COMPACT_LABEL, [NEWLINE] + MARKER);
    Assoc(b3 + HexText(s.policy) + COMPACT_PROFILE + COMPACT_LABEL, [NEWLINE], MARKER);
  }

  lemma CompactSplit(s: Shown)
    ensures CompactText(s) == CompactLeadThen(s, []) + TaggedThen(COMPACT_ASSET, s.assetId, [])
      + TaggedThen(COMPACT_EXEC, Hexed(s.commitment), []) + CompactFooter(s)
  {
    hide Ascii, CompactLeadThen, TaggedThen, CompactFooter, Hexed, COMPACT_ASSET, COMPACT_EXEC;
    var f, h := CompactFooter(s), Hexed(s.commitment);
    var lead, id, c := CompactLeadThen(s, []), TaggedThen(COMPACT_ASSET, s.assetId, []), TaggedThen(COMPACT_EXEC, h, []);
    TaggedSplit(COMPACT_EXEC, h, f);
    TaggedSplit(COMPACT_ASSET, s.assetId, c + f);
    CompactLeadSplit(s, CompactOptionsThen(s, f));
    Assoc(lead, id, c + f);
    Assoc(lead + id, c, f);
  }

  lemma CompactLeadSplit(s: Shown, t: seq<byte>)
    ensures CompactLeadThen(s, t) == CompactLeadThen(s, []) + t
  {
    hide Ascii, COMPACT_START, COMPACT_SEND, COMPACT_TO;
    Nothing(s.recipient);
    Assoc(COMPACT_TO, s.recipient, t);
    TailOut(s.amount, [SPACE], s.asset, COMPACT_TO + s.recipient, t);
    var last := s.amount + ([SPACE] + (s.asset + (COMPACT_TO + s.recipient)));
    Assoc(COMPACT_SEND, last, t);
    Assoc(COMPACT_START, COMPACT_SEND + last, t);
  }

  method WriteCompactLead(w: Writer, row: TransferRow, ghost s: Shown) returns (r: Check)
    requires w.Valid() && ValidateRow(row).Ok?
    requires s.amount == AmountBytes(row) && s.asset == DisplayAsset(row)
    requires s.recipient == IdentityText(row.recipientEncoding, row.recipient)
    modifies w`len, w.out
    ensures w.Valid() && w.Wrote(old(w.Contents()), CompactLeadThen(s, []), r)
  {
    hide Writer.Contents, COMPACT_START, COMPACT_SEND, COMPACT_TO;
    hide Ascii, CompactLeadThen, Visible, Decimal.AmountText, Base58.Base58Text;
    AppendCompactLead(w.Contents(), s);
    var _ :- w.Push(COMPACT_START);
    var _ :- w.Push(COMPACT_SEND);
    var _ :- w.Amount(row.rawAmount, row.decimals);
    var _ :- w.Push([SPACE]);
    var _ :- w.Push(DisplayAsset(row));
    var _ :- w.Push(COMPACT_TO);
    KeyHasText(row);
    r := w.Identity(row.recipientEncoding, row.recipient);
  }

  method WriteCompactFooter(w: Writer, common: CommonFields, wallet: seq<byte>, ghost s: Shown) returns (r: Check)
    requires w.Valid() && s.network == Ascii(common.network.DisplayName()) && s.wallet == wallet
    requires s.approvals == common.approvalRequired && s.proposalIndex == common.proposalIndex
    requires s.expiresAt == common.expiresAt && s.policy == common.policyCommitment
    modifies w`len, w.out
    ensures w.Valid() && w.Wrote(old(w.Contents()), CompactFooter(s), r)
  {
    hide Writer.Contents, COMPACT_NET, COMPACT_FROM, COMPACT_APPROVAL, COMPACT_PROPOSAL;
    hide Ascii, CompactFooter, CompactClosing, Decimal.Dec, Network.DisplayName;
    AppendCompactFooter(w.Contents(), s);
    var _ :- w.Push(COMPACT_NET);
    var _ :- w.Push(Ascii(common.network.DisplayName()));
    var _ :- w.Push(COMPACT_FROM);
    var _ :- w.Push(wallet);
    var _ :- w.Push(COMPACT_APPROVAL);
    var _ :- w.DecimalU128(common.approvalRequired);
    var _ :- w.Push(COMPACT_PROPOSAL);
    var _ :- w.DecimalU128(common.proposalIndex);
    r := WriteCompactClosing(w, common, s);
  }

  method WriteCompactClosing(w: Writer, common: CommonFields, ghost s: Shown) returns (r: Check)
    requires w.Valid() && s.expiresAt == common.expiresAt && s.policy == common.policyCommitment
    modifies w`len, w.out
    ensures w.Valid() && w.Wrote(old(w.Contents()), CompactClosing(s), r)
  {
    hide Writer.Contents, COMPACT_EXPIRES, COMPACT_POLICY, COMPACT_PROFILE, COMPACT_LABEL, MARKER;
    hide Ascii, CompactClosing, HexText, SignedText;
    AppendCompactClosing(w.Contents(), s);
    var _ :- w.Push(COMPACT_EXPIRES);
    var _ :- w.SignedDecimalI64(common.expiresAt);
    var _ :- w.Push(COMPACT_POLICY);
    var _ :- w.Hex(common.policyCommitment);
    var _ :- w.Push(COMPACT_PROFILE);
    var _ :- w.Push(COMPACT_LABEL);
    var _ :- w.Push([NEWLINE]);
    r := w.Push(MARKER);
  }

  // ----- The renderers -----

  /** The document of a profile. */
  function DocumentText(q: Request, wallet: seq<byte>): seq<byte>
    requires q.body.SendBody?
  {
    if q.common.profile.Full? then FullText(ShownOf(q, wallet)) else CompactText(ShownOf(q, wallet))
  }

  /** A text of this length in a buffer of this capacity. */
  function Outcome(length: nat, capacity: nat, max: nat): Result<nat, Error> {
    if length > capacity then Err(BufferTooSmall) else if length > max then Err(MessageTooLong) else Ok(length)
  }

  /** A bad wallet name is refused; otherwise the buffer starts with the document if it fits both the
      buffer and the profile's limit. */
  ghost predicate Rendered(q: Request, wallet: seq<byte>, out: array<byte>, r: Result<nat, Error>)
    requires q.body.SendBody?
    reads out
  {
    var check, text := ValidateVisibleAscii(wallet, 64, false), DocumentText(q, wallet);
    if check.Err? then r == Err(check.error)
    else
      && r == Outcome(|text|, out.Length, q.common.profile.MaxDocumentBytes())
      && (r.Ok? ==> text <= out[..])
  }

  lemma Holds(w: Writer)
    requires w.Valid()
    ensures w.Contents() <= w.out[..]
  {
  }

  method RenderFull(intent: Intent, wallet: seq<byte>, out: array<byte>, ghost q: Request) returns (r: Result<nat, Error>)
    requires Accepted(q) && q.body.SendBody? && intent == Wire.IntentOf(q) && q.common.profile.Full?
    modifies out
    ensures Rendered(q, wallet, out, r)
  {
    hide Writer.Contents, ASSET_ID, TEMPLATE, NOT_PROVIDED;
    hide Visible, Accepted, FullText, LeadThen, DetailsThen, TaggedThen, EstimateThen, ReviewFooter, Hexed,
         IdentityText, AmountBytes, DisplayAsset, Ascii, Wire.Serialize, Network.DisplayName, ValidateRow, EstimateOf, Wire.FiatThen, HexText;
    var _ :- ValidateVisibleAscii(wallet, 64, false);
    ghost var s := ShownOf(q, wallet);
    RequestParts(q);
    var row := intent.action.row;
    var w := new Writer(out);
    FullSplit(s);
    var _ :- WriteLead(w, row, wallet, s);
    var _ :- WriteDetails(w, row, intent.common.network, s);
    var _ :- WriteOptions(w, intent.action, s);
    var _ :- WriteReviewFooter(w, intent.common, intent.reason, s);
    if w.len > intent.common.profile.MaxDocumentBytes() {
      return Err(MessageTooLong);
    }
    Holds(w);
    return Ok(w.len);
  }

  lemma RequestParts(q: Request)
    requires Accepted(q) && q.body.SendBody?
    ensures ValidateRow(q.body.row).Ok? && ValidateOptionalFiat(q.body.fiat).Ok?
    ensures EstimateOf(Wire.FiatThen(q.body.fiat, [])) == Ok(q.body.fiat)
  {
    hide ValidateRow, ValidateFiat, Wire.ParseFiat, Wire.FiatThen, Visible;
    CodecLaws.FiatBack(q.body.fiat, []);
  }

  method RenderCompact(intent: Intent, wallet: seq<byte>, out: array<byte>, ghost q: Request) returns (r: Result<nat, Error>)
    requires Accepted(q) && q.body.SendBody? && intent == Wire.IntentOf(q) && q.common.profile.LedgerSolana?
    modifies out
    ensures Rendered(q, wallet, out, r)
  {
    hide Writer.Contents, COMPACT_ASSET, COMPACT_EXEC, NOT_PROVIDED;
    hide Visible, Accepted, CompactText, CompactLeadThen, TaggedThen, CompactFooter, Hexed,
         IdentityText, AmountBytes, DisplayAsset, Ascii, Wire.Serialize, Network.DisplayName, ValidateRow;
    var _ :- ValidateVisibleAscii(wallet, 64, false);
    ghost var s := ShownOf(q, wallet);
    RequestParts(q);
    var row := intent.action.row;
    var w := new Writer(out);
    CompactSplit(s);
    var _ :- WriteCompactLead(w, row, s);
    var _ :- WriteAssetId(w, row, COMPACT_ASSET, s);
    var _ :- WriteCommitment(w, intent.action.executionCommitment, COMPACT_EXEC);
    var _ :- WriteCompactFooter(w, intent.common, wallet, s);
    if w.len > intent.common.profile.MaxDocumentBytes() {
      return Err(MessageTooLong);
    }
    Holds(w);
    return Ok(w.len);
  }

  /** `render_document` on a parsed single transfer. */
  method RenderDocument(intent: Intent, wallet: seq<byte>, out: array<byte>, ghost q: Request) returns (r: Result<nat, Error>)
    requires Accepted(q) && q.body.SendBody? && intent == Wire.IntentOf(q)
    modifies out
    ensures Rendered(q, wallet, out, r)
  {
    hide Accepted, FullText, CompactText, Visible;
    match intent.common.profile {
      case Full => r := RenderFull(intent, wallet, out, q);
      case LedgerSolana => r := RenderCompact(intent, wallet, out, q);
    }
  }

  // ----- Lengths -----

  lemma {:induction false} DecLength(n: nat, w: nat)
    requires w > 0 && n < Pow(10, w)
    ensures |Decimal.Dec(n)| <= w
  {
    if n >= 10 {
      assert Pow(10, 0) == 1;
      assert Pow(10, w) == 10 * Pow(10, w - 1);
      DecLength(n / 10, w - 1);
    }
  }

  lemma NumberLength(n: u128)
    ensures |Number(n)| <= 39
  {
    hide Ascii, Decimal.Dec, Pow;
    PowLimit();
    DecLength(n, 39);
  }

  lemma AmountLength(row: TransferRow)
    requires row.decimals <= 36
    ensures |AmountBytes(row)| <= 76
  {
    hide Ascii, Decimal.Dec, Pow, Decimal.Padded, Decimal.TrimEndZeros;
    PowPositive(10, row.decimals);
    var p := Pow(10, row.decimals);
    DivMod(row.rawAmount, p);
    MulGrows(p, row.rawAmount / p);
    NumberLength(row.rawAmount / p);
  }

  lemma IdentityLength(row: TransferRow)
    requires ValidateRow(row).Ok?
    ensures |IdentityText(row.recipientEncoding, row.recipient)| <= 192
  {
    hide Base58.Base58Text, Visible;
    KeyHasText(row);
  }

  lemma NetworkLength(n: Network)
    ensures |Ascii(n.DisplayName())| <= 19
  {
  }

  lemma ShownLengths(q: Request, wallet: seq<byte>)
    requires Accepted(q) && q.body.SendBody? && ValidateVisibleAscii(wallet, 64, false).Ok?
    ensures Short(ShownOf(q, wallet))
  {
    hide Ascii, IdentityText, AmountBytes, Visible, Network.DisplayName, FiatAmountText;
    AmountLength(q.body.row);
    IdentityLength(q.body.row);
    NetworkLength(q.common.network);
  }

  lemma FullConstants()
    ensures |SEND| + |FROM_WALLET| + |NETWORK| + |AMOUNT| + |TO| <= 90
    ensures |ASSET_ID| + |TEMPLATE| <= 40
    ensures |ESTIMATED| + |INFORMATIONAL| + |PRICE_SOURCE| + |PRICE_OBSERVED| + |UNIX_SECONDS| <= 100
  {
  }

  lemma FooterConstants()
    ensures |APPROVAL| + |SIGNATURES| + |EXECUTION| + |POLICY_COMMITMENT| <= 150 && |SIGNATURE| <= |SIGNATURES|
    ensures |DISPLAY_PROFILE| + |FULL_LABEL| + |MARKER| + |CATEGORY| + |SEND_CATEGORY| <= 110
    ensures |SIGNER_CHECK| + |SEND_CHECK| + |PURPOSE| <= 80 && |NOT_PROVIDED| <= 160
  {
  }

  lemma CompactConstants()
    ensures |COMPACT_START| + |COMPACT_SEND| + |COMPACT_TO| + |COMPACT_ASSET| + |COMPACT_EXEC| <= 50
    ensures |COMPACT_NET| + |COMPACT_FROM| + |COMPACT_APPROVAL| + |COMPACT_PROPOSAL| <= 50
    ensures |COMPACT_EXPIRES| + |COMPACT_POLICY| + |COMPACT_PROFILE| + |COMPACT_LABEL| + |MARKER| <= 100
  {
  }

  predicate Short(s: Shown) {
    && |s.amount| <= 76 && |s.asset| <= 24 && |s.wallet| <= 64 && |s.network| <= 19 && |s.recipient| <= 192
    && (s.assetId.Some? ==> |s.assetId.value| <= 96) && |s.purpose| <= 160
    && (s.fiat.Some? ==> |s.fiat.value.amount| <= 32 && |s.fiat.value.currency| <= 8 && |s.fiat.value.source| <= 64
                         && s.fiat.value.observedAt > 0)
  }

  lemma HeadLengths(s: Shown)
    requires Short(s)
    ensures |LeadThen(s, [])| + |DetailsThen(s, [])| <= 560
    ensures |CompactLeadThen(s, [])| + |COMPACT_ASSET| + |COMPACT_EXEC| <= 350
    ensures |ASSET_ID| + |TEMPLATE| <= 40
  {
    hide Ascii;
    FullConstants();
    CompactConstants();
  }

  lemma EstimateLength(s: Shown)
    requires Short(s)
    ensures |EstimateThen(s.fiat, [])| <= 250
  {
    hide Ascii, Number;
    FullConstants();
    if s.fiat.Some? {
      NumberLength(s.fiat.value.observedAt);
    }
  }

  lemma FooterLength(s: Shown)
    requires Short(s)
    ensures |ReviewFooter(s)| <= 620
  {
    hide Ascii, Number, HexText;
    FooterConstants();
    NumberLength(s.approvals);
    AppendPolicy([], s);
    assert [] + ReviewFooter(s) == ReviewFooter(s);
  }

  lemma CompactFooterLength(s: Shown)
    requires Short(s)
    ensures |CompactFooter(s)| <= 430
  {
    hide Ascii, Number, HexText, Expiry;
    CompactConstants();
    NumberLength(s.approvals);
    NumberLength(s.proposalIndex);
    ExpiryLength(s.expiresAt);
  }

  /** The document of an acceptable transfer never exceeds its profile's limit, so a buffer of that
      size is always enough. */
  lemma DocumentsFit(q: Request, wallet: seq<byte>)
    requires Accepted(q) && q.body.SendBody? && ValidateVisibleAscii(wallet, 64, false).Ok?
    ensures |DocumentText(q, wallet)| <= q.common.profile.MaxDocumentBytes()
  {
    hide Accepted, Visible, ShownOf, Hexed, FullText, CompactText, LeadThen, DetailsThen, EstimateThen, ReviewFooter,
         CompactLeadThen, CompactFooter, ASSET_ID, TEMPLATE, COMPACT_ASSET, COMPACT_EXEC;
    var s := ShownOf(q, wallet);
    ShownLengths(q, wallet);
    HeadLengths(s);
    EstimateLength(s);
    FooterLength(s);
    CompactFooterLength(s);
    HexedLength(s.commitment);
    FullSplit(s);
    CompactSplit(s);
  }

  lemma ExpiryLength(at: i64)
    ensures |Expiry(at)| <= 40
  {
    hide Ascii, Decimal.Dec;
    NumberLength(Magnitude(at));
  }

  lemma HexedLength(c: Bytes32)
    ensures Hexed(c).Some? ==> |Hexed(c).value| <= 64
  {
    hide HexText;
  }
}

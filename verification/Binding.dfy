/** How the document a signer reads and the payload an executor checks go together: what one settles
    about the other, and what it leaves open. */
module Binding {
  import opened Base
  import opened Model
  import opened Io
  import opened Documents
  import opened DocumentLaws
  import opened Payload
  import Base58
  import Decimal

  /** The full documents are the same. */
  predicate SameDocument(q: Request, wallet: seq<byte>, q': Request, wallet': seq<byte>)
    requires q.body.SendBody? && q'.body.SendBody?
  {
    FullText(ShownOf(q, wallet)) == FullText(ShownOf(q', wallet'))
  }

  /** The full documents are the same, and so are the compact ones. */
  predicate SameDocuments(q: Request, wallet: seq<byte>, q': Request, wallet': seq<byte>)
    requires q.body.SendBody? && q'.body.SendBody?
  {
    SameDocument(q, wallet, q', wallet') && CompactText(ShownOf(q, wallet)) == CompactText(ShownOf(q', wallet'))
  }

  /** What the payload of a transfer holds that its document does not: the scale of the amount, and the
      bytes that stand for recipient and asset. */
  predicate SameUnshown(sha: Sha, r: TransferRow, r': TransferRow) {
    && r.decimals == r'.decimals
    && Committed(sha, r.recipientEncoding, r.recipient) == Committed(sha, r'.recipientEncoding, r'.recipient)
    && Committed(sha, r.assetEncoding, r.asset) == Committed(sha, r'.assetEncoding, r'.asset)
  }

  lemma {:induction false} PowInjective(base: nat, a: nat, b: nat)
    requires base > 1 && Pow(base, a) == Pow(base, b)
    ensures a == b
  {
    if a < b {
      PowGrows(base, a, b);
    } else if b < a {
      PowGrows(base, b, a);
    }
  }

  lemma {:induction false} PowGrows(base: nat, a: nat, b: nat)
    requires base > 1 && a < b
    ensures Pow(base, a) < Pow(base, b)
    decreases b
  {
    PowPositive(base, b - 1);
    MulMonotone(2, base, Pow(base, b - 1));
    if a < b - 1 {
      PowGrows(base, a, b - 1);
    }
  }

  /** Equal rationals with equal raw amounts have equal scales, and the other way round. */
  lemma ScaleOrRaw(raw: nat, decimals: nat, raw': nat, decimals': nat)
    requires raw * Pow(10, decimals') == raw' * Pow(10, decimals) && raw > 0
    ensures raw == raw' <==> decimals == decimals'
  {
    hide Pow;
    PowPositive(10, decimals);
    if raw == raw' {
      Decimal.CancelScale(Pow(10, decimals'), Pow(10, decimals), raw);
      PowInjective(10, decimals, decimals');
    } else if decimals == decimals' {
      Decimal.CancelScale(raw, raw', Pow(10, decimals));
    }
  }

  /** Two accepted transfers share their full document and their payload content exactly when they show
      the same and also agree on scale and on the bytes hashed for recipient and asset. */
  lemma DocumentAndContent(sha: Sha, q: Request, wallet: seq<byte>, q': Request, wallet': seq<byte>)
    requires Reviewable(q, wallet) && Reviewable(q', wallet')
    ensures SameDocument(q, wallet, q', wallet') && ContentOf(sha, q.body) == ContentOf(sha, q'.body)
            <==> SameTransfer(q, wallet, q', wallet') && q.body.fiat == q'.body.fiat && SameReason(q.reason, q'.reason)
                 && SameUnshown(sha, q.body.row, q'.body.row)
  {
    hide FullText, Accepted, IdentityText, Ascii, Pow, ShownOf, Committed, SameReason;
    FullDocumentsAgree(q, wallet, q', wallet');
    RawPositive(q);
    var r, r' := q.body.row, q'.body.row;
    if SameTransfer(q, wallet, q', wallet') {
      ScaleOrRaw(r.rawAmount, r.decimals, r'.rawAmount, r'.decimals);
    }
  }

  /** The same for compact documents. */
  lemma CompactAndContent(sha: Sha, q: Request, wallet: seq<byte>, q': Request, wallet': seq<byte>)
    requires Reviewable(q, wallet) && Reviewable(q', wallet')
    ensures CompactText(ShownOf(q, wallet)) == CompactText(ShownOf(q', wallet')) && ContentOf(sha, q.body) == ContentOf(sha, q'.body)
            <==> SameTransfer(q, wallet, q', wallet') && q.common.proposalIndex == q'.common.proposalIndex
                 && q.common.expiresAt == q'.common.expiresAt && SameUnshown(sha, q.body.row, q'.body.row)
  {
    hide CompactText, Accepted, IdentityText, Ascii, Pow, ShownOf, Committed;
    CompactDocumentsAgree(q, wallet, q', wallet');
    RawPositive(q);
    var r, r' := q.body.row, q'.body.row;
    if SameTransfer(q, wallet, q', wallet') {
      ScaleOrRaw(r.rawAmount, r.decimals, r'.rawAmount, r'.decimals);
    }
  }

  lemma RawPositive(q: Request)
    requires Accepted(q) && q.body.SendBody?
    ensures q.body.row.rawAmount > 0 && ValidateRow(q.body.row).Ok?
  {
    hide Visible, ValidateIdentity;
  }

  // ----- Recipients that read alike -----

  /** No key spells itself: a key of letters is too large a number for 32 letters. */
  lemma KeyIsNotItsText(key: Bytes32)
    ensures Base58.Base58Text(key) != key
  {
    hide Base58.Horner, Base58.Digits, Base58.LeadingZeros, Pow, Base58.Letters, Base58.Ones, Zeros;
    if Base58.Base58Text(key) == key {
      FirstIsLetter(key);
      var v, ds := Base58.Horner(key, 256), Base58.NumberDigits(key);
      Base58.HornerBelow(key, 256);
      Base58.NumberOfDigits(key);
      Base58.HornerBelow(ds, 58);
      assert |ds| <= 32;
      PowMonotone(58, |ds|, 32);
      KeyTooLarge();
    }
  }

  lemma FirstIsLetter(key: Bytes32)
    requires Base58.Base58Text(key) == key
    ensures key[0] != 0 && |Base58.NumberDigits(key)| <= 32
  {
    hide Base58.LeadingZeros, Base58.NumberDigits;
  }

  lemma KeyTooLarge()
    ensures Pow(58, 32) <= Pow(256, 31)
  {
    hide Pow;
    PowAdd(58, 16, 16);
    PowAdd(58, 8, 8);
    PowAdd(58, 4, 4);
    PowAdd(256, 12, 12);
    PowAdd(256, 6, 6);
    PowAdd(256, 3, 3);
    FourLetters();
    Base58.Squares(Pow(58, 4), Pow(256, 3));
    Base58.Squares(Pow(58, 8), Pow(256, 6));
    Base58.Squares(Pow(58, 16), Pow(256, 12));
    PowMonotone(256, 24, 31);
  }

  lemma FourLetters()
    ensures Pow(58, 4) == 11_316_496 < 16_777_216 == Pow(256, 3)
  {
  }

  /** Recipients that read alike, neither of them a digest, are the same bytes exactly when both are
      given as a key or both as text. */
  lemma RecipientsReadAlike(sha: Sha, r: TransferRow, r': TransferRow)
    requires ValidateRow(r).Ok? && ValidateRow(r').Ok?
    requires !r.recipientEncoding.Sha256Text? && !r'.recipientEncoding.Sha256Text?
    requires IdentityText(r.recipientEncoding, r.recipient) == IdentityText(r'.recipientEncoding, r'.recipient)
    ensures Committed(sha, r.recipientEncoding, r.recipient) == Committed(sha, r'.recipientEncoding, r'.recipient)
            <==> r.recipientEncoding == r'.recipientEncoding
  {
    hide Base58.Base58Text, Visible;
    if r.recipientEncoding.SolanaPubkey? && r'.recipientEncoding.SolanaPubkey? {
      Base58.Injective(r.recipient, r'.recipient);
    } else if r.recipientEncoding.SolanaPubkey? {
      KeyIsNotItsText(r.recipient);
    } else if r'.recipientEncoding.SolanaPubkey? {
      KeyIsNotItsText(r'.recipient);
    }
  }

  // ----- One document, two payloads -----

  function WithRow(q: Request, row: TransferRow): Request
    requires q.body.SendBody?
  {
    q.(body := q.body.(row := row))
  }

  lemma RowAccepted(q: Request, row: TransferRow)
    requires Accepted(q) && q.body.SendBody? && ValidateRow(row).Ok?
    ensures Accepted(WithRow(q, row))
  {
    hide ValidateRow, ValidateFiat, Visible;
  }

  /** Every acceptable transfer whose amount can be scaled up shares its documents with another that
      authorises a different raw amount. */
  lemma RescaledShares(sha: Sha, q: Request, wallet: seq<byte>)
    requires Reviewable(q, wallet) && q.body.row.decimals < 36 && q.body.row.rawAmount * 10 < Decimal.U128_LIMIT
    ensures var r := q.body.row;
      var q' := WithRow(q, r.(rawAmount := r.rawAmount * 10, decimals := r.decimals + 1));
      && Reviewable(q', wallet) && SameDocuments(q, wallet, q', wallet)
      && ContentOf(sha, q.body) != ContentOf(sha, q'.body)
  {
    hide FullText, CompactText, Accepted, IdentityText, Ascii, Pow, ShownOf, Committed, ValidateRow;
    var r := q.body.row;
    var q' := WithRow(q, r.(rawAmount := r.rawAmount * 10, decimals := r.decimals + 1));
    RawPositive(q);
    RescaledValid(r);
    RowAccepted(q, q'.body.row);
    assert Pow(10, r.decimals + 1) == 10 * Pow(10, r.decimals) by { Decimal.PowNext(r.decimals); }
    TenEitherWay(r.rawAmount, Pow(10, r.decimals));
    FullDocumentsAgree(q, wallet, q', wallet);
    CompactDocumentsAgree(q, wallet, q', wallet);
  }

  lemma RescaledValid(r: TransferRow)
    requires ValidateRow(r).Ok? && r.decimals < 36 && r.rawAmount * 10 < Decimal.U128_LIMIT
    ensures ValidateRow(r.(rawAmount := r.rawAmount * 10, decimals := r.decimals + 1)).Ok?
  {
    hide ValidateIdentity, Visible;
  }

  lemma TenEitherWay(n: nat, p: nat)
    ensures n * (10 * p) == n * 10 * p
  {
  }

  /** A textual asset can be exchanged for any other behind the same displayed name. */
  lemma OtherAssetShares(sha: Sha, q: Request, wallet: seq<byte>, asset: seq<byte>)
    requires Reviewable(q, wallet) && q.body.row.assetEncoding.Text?
    requires ValidateIdentity(Text, asset, MAX_ASSET_BYTES).Ok? && asset != q.body.row.asset
    ensures var q' := WithRow(q, q.body.row.(asset := asset));
      && Reviewable(q', wallet) && SameDocuments(q, wallet, q', wallet)
      && ContentOf(sha, q.body) != ContentOf(sha, q'.body)
  {
    hide FullText, CompactText, Ascii, Decimal.AmountText, IdentityText, Visible, ValidateFiat;
    var q' := WithRow(q, q.body.row.(asset := asset));
    assert ShownOf(q', wallet) == ShownOf(q, wallet) && Accepted(q') by {
      RawPositive(q);
      RowAccepted(q, q'.body.row);
    }
  }

  /** A recipient key can be exchanged for the text that spells it. */
  lemma SpelledKeyShares(sha: Sha, q: Request, wallet: seq<byte>)
    requires Reviewable(q, wallet) && q.body.row.recipientEncoding.SolanaPubkey?
    ensures var r := q.body.row;
      var q' := WithRow(q, r.(recipientEncoding := Text, recipient := Base58.Base58Text(r.recipient)));
      && Reviewable(q', wallet) && SameDocuments(q, wallet, q', wallet)
      && ContentOf(sha, q.body) != ContentOf(sha, q'.body)
  {
    hide FullText, CompactText, Accepted, Ascii, Pow, ShownOf, ValidateRow, Base58.Base58Text;
    var r := q.body.row;
    var r' := r.(recipientEncoding := Text, recipient := Base58.Base58Text(r.recipient));
    var q' := WithRow(q, r');
    RawPositive(q);
    SpelledValid(r);
    RowAccepted(q, r');
    RecipientsReadAlike(sha, r, r');
    FullDocumentsAgree(q, wallet, q', wallet);
    CompactDocumentsAgree(q, wallet, q', wallet);
  }

  lemma SpelledValid(r: TransferRow)
    requires ValidateRow(r).Ok? && r.recipientEncoding.SolanaPubkey?
    ensures ValidateRow(r.(recipientEncoding := Text, recipient := Base58.Base58Text(r.recipient))).Ok?
  {
    hide Visible, Base58.Base58Text, Word;
    Base58.KeyFits(r.recipient);
    Base58IsWord(r.recipient);
    KeyHasLetters(r.recipient);
    WordIsVisible(Base58.Base58Text(r.recipient));
  }

  lemma WordIsVisible(s: seq<byte>)
    requires Word(s)
    ensures Visible(s)
  {
  }

  /** Any recipient whose text is not its own digest can be exchanged for the digest of that text. */
  lemma DigestShares(sha: Sha, q: Request, wallet: seq<byte>)
    requires Reviewable(q, wallet) && !q.body.row.recipientEncoding.Sha256Text?
    requires sha(IdentityText(q.body.row.recipientEncoding, q.body.row.recipient)) != q.body.row.recipient
    ensures var r := q.body.row;
      var q' := WithRow(q, r.(recipientEncoding := Sha256Text, recipient := IdentityText(r.recipientEncoding, r.recipient)));
      && Reviewable(q', wallet) && SameDocuments(q, wallet, q', wallet)
      && ContentOf(sha, q.body) != ContentOf(sha, q'.body)
  {
    hide FullText, CompactText, Accepted, Ascii, Pow, ShownOf, ValidateRow, Base58.Base58Text;
    var r := q.body.row;
    var r' := r.(recipientEncoding := Sha256Text, recipient := IdentityText(r.recipientEncoding, r.recipient));
    var q' := WithRow(q, r');
    RawPositive(q);
    DigestValid(r);
    RowAccepted(q, r');
    FullDocumentsAgree(q, wallet, q', wallet);
    CompactDocumentsAgree(q, wallet, q', wallet);
  }

  lemma DigestValid(r: TransferRow)
    requires ValidateRow(r).Ok? && !r.recipientEncoding.Sha256Text?
    ensures ValidateRow(r.(recipientEncoding := Sha256Text, recipient := IdentityText(r.recipientEncoding, r.recipient))).Ok?
  {
    hide Visible, Base58.Base58Text;
    if r.recipientEncoding.SolanaPubkey? {
      SpelledValid(r);
    }
  }

  /** An asset key that happens to be 32 visible bytes can be exchanged for the digest of those bytes. */
  lemma DigestAssetShares(sha: Sha, q: Request, wallet: seq<byte>)
    requires Reviewable(q, wallet) && q.body.row.assetEncoding.SolanaPubkey? && Visible(q.body.row.asset)
    requires sha(q.body.row.asset) != q.body.row.asset
    ensures var q' := WithRow(q, q.body.row.(assetEncoding := Sha256Text));
      && Reviewable(q', wallet) && SameDocuments(q, wallet, q', wallet)
      && ContentOf(sha, q.body) != ContentOf(sha, q'.body)
  {
    hide FullText, CompactText, Accepted, IdentityText, Ascii, Pow, ShownOf, ValidateRow, Visible;
    var q' := WithRow(q, q.body.row.(assetEncoding := Sha256Text));
    RawPositive(q);
    DigestAssetValid(q.body.row);
    RowAccepted(q, q'.body.row);
    FullDocumentsAgree(q, wallet, q', wallet);
    CompactDocumentsAgree(q, wallet, q', wallet);
  }

  lemma DigestAssetValid(r: TransferRow)
    requires ValidateRow(r).Ok? && r.assetEncoding.SolanaPubkey? && Visible(r.asset)
    ensures ValidateRow(r.(assetEncoding := Sha256Text)).Ok?
  {
    hide Visible;
  }

  // ----- An unprintable review -----

  /** Any acceptable transfer with its asset replaced by the all-zero key is acceptable, and neither of
      its documents is plain text. */
  lemma ZeroKeyUnprintable(q: Request, wallet: seq<byte>)
    requires Reviewable(q, wallet)
    ensures var q' := WithRow(q, q.body.row.(assetEncoding := SolanaPubkey, asset := ZERO32));
      && Reviewable(q', wallet)
      && !Printable(FullText(ShownOf(q', wallet))) && !Printable(CompactText(ShownOf(q', wallet)))
  {
    hide FullText, CompactText, Accepted, ShownOf, ValidateRow, Printable;
    var q' := WithRow(q, q.body.row.(assetEncoding := SolanaPubkey, asset := ZERO32));
    RawPositive(q);
    ZeroKeyValid(q.body.row);
    RowAccepted(q, q'.body.row);
    ReviewPrintsIff(q', wallet);
    ZeroUnprintable();
  }

  lemma ZeroKeyValid(r: TransferRow)
    requires ValidateRow(r).Ok?
    ensures ValidateRow(r.(assetEncoding := SolanaPubkey, asset := ZERO32)).Ok?
  {
    hide Visible, Zeros;
  }

  lemma ZeroUnprintable()
    ensures !Printable(ZERO32)
  {
    assert ZERO32[0] == 0;
  }

  /** The least a transfer can say. */
  const SAMPLE: Request := Request(
    CommonFields(Full, SolanaDevnet, 0, ZERO32, ZERO32, ZERO32, ZERO32, 0, ZERO32, 1),
    SendBody(TransferRow(Text, [0x61], Text, [0x62], 1, 0, [0x63]), ZERO32, None),
    [])

  /** There is one: none of the above is about nothing. */
  lemma SampleReviewable()
    ensures Reviewable(SAMPLE, [0x64])
  {
    hide Zeros;
  }
}

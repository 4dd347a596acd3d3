/** What can be read back from a rendered transfer: which bytes show, how long it is, and that equal
    texts show equal reviews. */
module DocumentLaws {
  import opened Base
  import opened Model
  import opened Io
  import opened Documents
  import Base58
  import Decimal

  // ----- Every byte shows -----

  lemma LeadPrints(s: Shown, t: seq<byte>)
    requires Legible(s)
    ensures Printable(LeadThen(s, t)) <==> Printable(t)
  {
    hide Printable, Ascii, Without;
    LeadLiterals();
    SeparatorsPrint();
    Skip(s.wallet, t);
    Skip(FROM_WALLET, s.wallet + t);
    Skip(s.asset, FROM_WALLET + (s.wallet + t));
    Skip([SPACE], s.asset + (FROM_WALLET + (s.wallet + t)));
    Skip(s.amount, [SPACE] + (s.asset + (FROM_WALLET + (s.wallet + t))));
    Skip(SEND, s.amount + ([SPACE] + (s.asset + (FROM_WALLET + (s.wallet + t)))));
  }

  lemma DetailsPrint(s: Shown, t: seq<byte>)
    requires Legible(s)
    ensures Printable(DetailsThen(s, t)) <==> Printable(t)
  {
    hide Printable, Ascii, Without;
    DetailLiterals();
    SeparatorsPrint();
    var t1 := s.recipient + t;
    var t2 := s.asset + (TO + t1);
    var t3 := s.amount + ([SPACE] + t2);
    Skip(s.recipient, t);
    Skip(TO, t1);
    Skip(s.asset, TO + t1);
    Skip([SPACE], t2);
    Skip(s.amount, [SPACE] + t2);
    Skip(AMOUNT, t3);
    Skip(s.network, AMOUNT + t3);
    Skip(NETWORK, s.network + (AMOUNT + t3));
  }

  lemma TaggedPrints(tag: seq<byte>, value: Option<seq<byte>>, t: seq<byte>)
    requires Printable(tag)
    ensures Printable(TaggedThen(tag, value, t)) <==> (value.Some? ==> Printable(value.value)) && Printable(t)
  {
    hide Printable;
    if value.Some? {
      Skip(tag, value.value + t);
      PrintsBoth(value.value, t);
    }
  }

  lemma HexedPrints(c: Bytes32)
    ensures Hexed(c).Some? ==> Word(Hexed(c).value)
  {
    hide Printable, HexText;
    HexIsWord(c);
  }

  lemma EstimatePrints(s: Shown, t: seq<byte>)
    requires Legible(s)
    ensures Printable(EstimateThen(s.fiat, t)) <==> Printable(t)
  {
    hide Printable, Ascii, Without, Number;
    if s.fiat.Some? {
      var f := s.fiat.value;
      EstimateLiterals();
      SeparatorsPrint();
      NumberIsWord(f.observedAt);
      var t1 := Number(f.observedAt) + (UNIX_SECONDS + t);
      var t2 := f.source + (PRICE_OBSERVED + t1);
      var t3 := f.currency + (INFORMATIONAL + (PRICE_SOURCE + t2));
      Skip(UNIX_SECONDS, t);
      Skip(Number(f.observedAt), UNIX_SECONDS + t);
      Skip(PRICE_OBSERVED, t1);
      Skip(f.source, PRICE_OBSERVED + t1);
      Skip(PRICE_SOURCE, t2);
      Skip(INFORMATIONAL, PRICE_SOURCE + t2);
      Skip(f.currency, INFORMATIONAL + (PRICE_SOURCE + t2));
      Skip([SPACE], t3);
      Skip(f.amount, [SPACE] + t3);
      Skip(ESTIMATED, f.amount + ([SPACE] + t3));
    }
  }

  lemma FooterPrints(s: Shown)
    requires Legible(s)
    ensures Printable(ReviewFooter(s))
  {
    hide Printable, Ascii, Without, HexText, Number;
    PolicyLiterals();
    ExecutionLiteral();
    ProfileLiterals();
    RiskLiterals();
    CheckLiteral();
    SeparatorsPrint();
    NumberIsWord(s.approvals);
    HexIsWord(s.policy);
    var t1 := SIGNER_CHECK + (SEND_CHECK + (PURPOSE + s.purpose));
    var t2 := MARKER + (CATEGORY + (SEND_CATEGORY + t1));
    var t3 := DISPLAY_PROFILE + (FULL_LABEL + ([NEWLINE] + t2));
    var t4 := EXECUTION + (POLICY_COMMITMENT + (HexText(s.policy) + t3));
    Skip(PURPOSE, s.purpose);
    Skip(SEND_CHECK, PURPOSE + s.purpose);
    Skip(SIGNER_CHECK, SEND_CHECK + (PURPOSE + s.purpose));
    Skip(SEND_CATEGORY, t1);
    Skip(CATEGORY, SEND_CATEGORY + t1);
    Skip(MARKER, CATEGORY + (SEND_CATEGORY + t1));
    Skip([NEWLINE], t2);
    Skip(FULL_LABEL, [NEWLINE] + t2);
    Skip(DISPLAY_PROFILE, FULL_LABEL + ([NEWLINE] + t2));
    Skip(HexText(s.policy), t3);
    Skip(POLICY_COMMITMENT, HexText(s.policy) + t3);
    Skip(EXECUTION, POLICY_COMMITMENT + (HexText(s.policy) + t3));
    Skip(Signatures(s.approvals), t4);
    Skip(Number(s.approvals), Signatures(s.approvals) + t4);
    Skip(APPROVAL, Number(s.approvals) + (Signatures(s.approvals) + t4));
  }

  lemma CompactLeadPrints(s: Shown, t: seq<byte>)
    requires Legible(s)
    ensures Printable(CompactLeadThen(s, t)) <==> Printable(t)
  {
    hide Printable, Ascii, Without;
    CompactLiterals();
    SeparatorsPrint();
    var t1 := s.recipient + t;
    var t2 := s.asset + (COMPACT_TO + t1);
    var t3 := s.amount + ([SPACE] + t2);
    Skip(s.recipient, t);
    Skip(COMPACT_TO, t1);
    Skip(s.asset, COMPACT_TO + t1);
    Skip([SPACE], t2);
    Skip(s.amount, [SPACE] + t2);
    Skip(COMPACT_SEND, t3);
    Skip(COMPACT_START, COMPACT_SEND + t3);
  }

  lemma CompactFooterPrints(s: Shown)
    requires Legible(s)
    ensures Printable(CompactFooter(s))
  {
    hide Printable, Ascii, Without, HexText, Number, Expiry;
    CompactLiterals();
    ProfileLiterals();
    SeparatorsPrint();
    NumberIsWord(s.approvals);
    NumberIsWord(s.proposalIndex);
    ExpiryIsWord(s.expiresAt);
    HexIsWord(s.policy);
    var t1 := COMPACT_PROFILE + (COMPACT_LABEL + ([NEWLINE] + MARKER));
    var t2 := Expiry(s.expiresAt) + (COMPACT_POLICY + (HexText(s.policy) + t1));
    var t3 := COMPACT_PROPOSAL + (Number(s.proposalIndex) + (COMPACT_EXPIRES + t2));
    var t4 := COMPACT_FROM + (s.wallet + (COMPACT_APPROVAL + (Number(s.approvals) + t3)));
    Skip([NEWLINE], MARKER);
    Skip(COMPACT_LABEL, [NEWLINE] + MARKER);
    Skip(COMPACT_PROFILE, COMPACT_LABEL + ([NEWLINE] + MARKER));
    Skip(HexText(s.policy), t1);
    Skip(COMPACT_POLICY, HexText(s.policy) + t1);
    Skip(Expiry(s.expiresAt), COMPACT_POLICY + (HexText(s.policy) + t1));
    Skip(COMPACT_EXPIRES, t2);
    Skip(Number(s.proposalIndex), COMPACT_EXPIRES + t2);
    Skip(COMPACT_PROPOSAL, Number(s.proposalIndex) + (COMPACT_EXPIRES + t2));
    Skip(Number(s.approvals), t3);
    Skip(COMPACT_APPROVAL, Number(s.approvals) + t3);
    Skip(s.wallet, COMPACT_APPROVAL + (Number(s.approvals) + t3));
    Skip(COMPACT_FROM, s.wallet + (COMPACT_APPROVAL + (Number(s.approvals) + t3)));
    Skip(s.network, t4);
    Skip(COMPACT_NET, s.network + t4);
  }

  lemma TextsPrint(s: Shown)
    requires Legible(s)
    ensures Printable(FullText(s)) <==> (s.assetId.Some? ==> Printable(s.assetId.value))
    ensures Printable(CompactText(s)) <==> (s.assetId.Some? ==> Printable(s.assetId.value))
  {
    hide Printable, Legible, Word, LeadThen, DetailsThen, EstimateThen, ReviewFooter, TaggedThen,
         CompactLeadThen, CompactFooter, Hexed, Ascii;
    OptionLiterals();
    HexedWord(s.commitment);
    FooterPrints(s);
    EstimatePrints(s, ReviewFooter(s));
    TaggedPrints(TEMPLATE, Hexed(s.commitment), EstimateThen(s.fiat, ReviewFooter(s)));
    TaggedPrints(ASSET_ID, s.assetId, TaggedThen(TEMPLATE, Hexed(s.commitment), EstimateThen(s.fiat, ReviewFooter(s))));
    DetailsPrint(s, OptionsThen(s, ReviewFooter(s)));
    LeadPrints(s, DetailsThen(s, OptionsThen(s, ReviewFooter(s))));
    CompactFooterPrints(s);
    TaggedPrints(COMPACT_EXEC, Hexed(s.commitment), CompactFooter(s));
    TaggedPrints(COMPACT_ASSET, s.assetId, TaggedThen(COMPACT_EXEC, Hexed(s.commitment), CompactFooter(s)));
    CompactLeadPrints(s, CompactOptionsThen(s, CompactFooter(s)));
  }

  lemma HexedWord(c: Bytes32)
    ensures Hexed(c).Some? ==> Printable(Hexed(c).value)
  {
    hide Printable, Hexed, Without;
    HexedPrints(c);
  }

  lemma AssetPrints(q: Request)
    requires Accepted(q) && q.body.SendBody? && !q.body.row.assetEncoding.SolanaPubkey?
    ensures Printable(q.body.row.asset)
  {
    hide Visible, Printable, Without;
    VisibleIsField(q.body.row.asset);
  }

  /** A review of an acceptable transfer is visible ASCII and newlines, unless its asset is a raw key
      with a byte that is neither. */
  lemma ReviewPrintsIff(q: Request, wallet: seq<byte>)
    requires Accepted(q) && q.body.SendBody? && ValidateVisibleAscii(wallet, 64, false).Ok?
    ensures var s, row := ShownOf(q, wallet), q.body.row;
      && (Printable(FullText(s)) <==> !row.assetEncoding.SolanaPubkey? || Printable(row.asset))
      && (Printable(CompactText(s)) <==> !row.assetEncoding.SolanaPubkey? || Printable(row.asset))
  {
    hide Printable, Legible, Word, FullText, CompactText, Accepted, IdentityText, AmountBytes, Without;
    ShownLegible(q, wallet);
    TextsPrint(ShownOf(q, wallet));
    if !q.body.row.assetEncoding.SolanaPubkey? {
      AssetPrints(q);
    }
  }

  // ----- Reading back -----

  predicate Starts(t: seq<byte>, b: byte) { t != [] && t[0] == b }

  /** A part that ends where the separator first comes. */
  lemma NextField(x: seq<byte>, y: seq<byte>, s: seq<byte>, t: seq<byte>, sep: byte)
    requires Without(x, sep) && Without(y, sep) && Starts(s, sep) && Starts(t, sep) && x + s == y + t
    ensures x == y && s == t
  {
    var u := x + s;
    assert u[|x|] == s[0] && u[|y|] == t[0];
    if |x| == |y| {
      SplitEqual(x, y, s, t);
    }
  }

  lemma StartsOn(p: seq<byte>, t: seq<byte>, b: byte)
    requires Starts(p, b)
    ensures Starts(p + t, b)
  {
  }

  lemma NotTag(tag: seq<byte>, p: seq<byte>, t: seq<byte>, i: nat)
    requires i < |tag| && i < |p| && tag[i] != p[i]
    ensures !(tag <= p + t)
  {
    assert (p + t)[i] == p[i] != tag[i];
  }

  lemma TagPrefix(tag: seq<byte>, t: seq<byte>)
    ensures tag <= tag + t
  {
  }

  lemma LeadEqual(s: Shown, s': Shown, t: seq<byte>, t': seq<byte>)
    requires Legible(s) && Legible(s') && Starts(t, NEWLINE) && Starts(t', NEWLINE)
    requires LeadThen(s, t) == LeadThen(s', t')
    ensures s.amount == s'.amount && s.asset == s'.asset && s.wallet == s'.wallet && t == t'
  {
    hide Printable, Ascii, Without;
    assert Starts(FROM_WALLET, NEWLINE) by { LeadStarts(); }
    var w, w' := FROM_WALLET + (s.wallet + t), FROM_WALLET + (s'.wallet + t');
    SplitEqual(SEND, SEND, s.amount + ([SPACE] + (s.asset + w)), s'.amount + ([SPACE] + (s'.asset + w')));
    NextField(s.amount, s'.amount, [SPACE] + (s.asset + w), [SPACE] + (s'.asset + w'), SPACE);
    SplitEqual([SPACE], [SPACE], s.asset + w, s'.asset + w');
    StartsOn(FROM_WALLET, s.wallet + t, NEWLINE);
    StartsOn(FROM_WALLET, s'.wallet + t', NEWLINE);
    NextField(s.asset, s'.asset, w, w', NEWLINE);
    SplitEqual(FROM_WALLET, FROM_WALLET, s.wallet + t, s'.wallet + t');
    NextField(s.wallet, s'.wallet, t, t', NEWLINE);
  }

  /** A part that starts after the last separator. */
  lemma LastField(x: seq<byte>, y: seq<byte>, s: seq<byte>, t: seq<byte>, sep: byte)
    requires Without(s, sep) && Without(t, sep) && x != [] && y != [] && x[|x| - 1] == y[|y| - 1] == sep
    requires x + s == y + t
    ensures x == y && s == t
  {
    var u := x + s;
    assert u[|x| - 1] == sep && u[|y| - 1] == sep;
    if |x| == |y| {
      SplitEqual(x, y, s, t);
    }
  }

  /** How many keys a list has shows in its text: none, one without a space, or more. */
  lemma KeyListShape(keys: seq<Bytes32>)
    ensures keys == [] <==> KeyListText(keys) == []
    ensures |keys| > 1 <==> !Without(KeyListText(keys), SPACE)
    ensures |keys| == 1 ==> KeyListText(keys) == Base58.Base58Text(keys[0])
    ensures keys != [] ==> Without(Base58.Base58Text(keys[|keys| - 1]), SPACE)
  {
    hide Base58.Base58Text, Word, Separator, Field;
    if keys != [] {
      var n := |keys| - 1;
      var front, k := KeyListText(keys[..n]), Base58.Base58Text(keys[n]);
      KeyHasLetters(keys[n]);
      SeparatorBytes(n);
      if n > 0 {
        assert KeyListText(keys)[|front| + 1] == SPACE;
      } else {
        NoKeys();
        assert keys[..0] == [];
        assert [] + [] + k == k;
      }
    }
  }

  lemma KeyHasLetters(key: Bytes32)
    ensures Base58.Base58Text(key) != [] && Without(Base58.Base58Text(key), SPACE)
  {
    hide Base58.LeadingZeros, Base58.NumberDigits;
    Base58IsWord(key);
  }

  lemma SeparatorBytes(n: nat)
    ensures Separator(n) == if n > 0 then [0x2C, SPACE] else []
  {
  }

  /** Two lists of keys that read the same are the same list. */
  lemma {:induction false} KeyListInjective(keys: seq<Bytes32>, keys': seq<Bytes32>)
    requires KeyListText(keys) == KeyListText(keys')
    ensures keys == keys'
    decreases |keys|
  {
    hide Base58.Base58Text, Without;
    KeyListShape(keys);
    KeyListShape(keys');
    if keys != [] {
      var n, m := |keys| - 1, |keys'| - 1;
      if n > 0 {
        var c := Ascii(", ");
        LastField(KeyListText(keys[..n]) + c, KeyListText(keys'[..m]) + c,
                  Base58.Base58Text(keys[n]), Base58.Base58Text(keys'[m]), SPACE);
        SplitEqual(KeyListText(keys[..n]), KeyListText(keys'[..m]), c, c);
        KeyListInjective(keys[..n], keys'[..m]);
      }
      Base58.Injective(keys[n], keys'[m]);
      assert keys == keys[..n] + [keys[n]] && keys' == keys'[..m] + [keys'[m]];
    }
  }

  lemma LeadStarts()
    ensures Starts(FROM_WALLET, NEWLINE) && Starts(NETWORK, NEWLINE) && Starts(AMOUNT, NEWLINE) && Starts(TO, NEWLINE)
    ensures Starts(COMPACT_TO, NEWLINE)
  {
  }

  lemma DetailsEqual(s: Shown, s': Shown, t: seq<byte>, t': seq<byte>)
    requires Legible(s) && Legible(s') && Starts(t, NEWLINE) && Starts(t', NEWLINE)
    requires s.amount == s'.amount && s.asset == s'.asset && DetailsThen(s, t) == DetailsThen(s', t')
    ensures s.network == s'.network && s.recipient == s'.recipient && t == t'
  {
    hide Printable, Ascii, Without;
    LeadStarts();
    var u, u' := s.recipient + t, s'.recipient + t';
    var v, v' := s.asset + (TO + u), s.asset + (TO + u');
    var w, w' := AMOUNT + (s.amount + ([SPACE] + v)), AMOUNT + (s.amount + ([SPACE] + v'));
    SplitEqual(NETWORK, NETWORK, s.network + w, s'.network + w');
    StartsOn(AMOUNT, s.amount + ([SPACE] + v), NEWLINE);
    StartsOn(AMOUNT, s.amount + ([SPACE] + v'), NEWLINE);
    NextField(s.network, s'.network, w, w', NEWLINE);
    SplitEqual(AMOUNT, AMOUNT, s.amount + ([SPACE] + v), s.amount + ([SPACE] + v'));
    SplitEqual(s.amount, s.amount, [SPACE] + v, [SPACE] + v');
    SplitEqual([SPACE], [SPACE], v, v');
    SplitEqual(s.asset, s.asset, TO + u, TO + u');
    SplitEqual(TO, TO, u, u');
    NextField(s.recipient, s'.recipient, t, t', NEWLINE);
  }

  /** An optional line is told by its tag. */
  lemma TaggedEqual(tag: seq<byte>, v: Option<seq<byte>>, v': Option<seq<byte>>, t: seq<byte>, t': seq<byte>)
    requires (v.Some? ==> Field(v.value)) && (v'.Some? ==> Field(v'.value))
    requires Starts(t, NEWLINE) && Starts(t', NEWLINE) && !(tag <= t) && !(tag <= t')
    requires TaggedThen(tag, v, t) == TaggedThen(tag, v', t')
    ensures v == v' && t == t'
  {
    hide Printable, Without, Starts;
    if v.Some? && v'.Some? {
      SplitEqual(tag, tag, v.value + t, v'.value + t');
      NextField(v.value, v'.value, t, t', NEWLINE);
    } else if v.Some? {
      TagPrefix(tag, v.value + t);
    } else if v'.Some? {
      TagPrefix(tag, v'.value + t');
    }
  }

  // ----- Raw keys -----

  /** Every line that begins inside goes on with neither byte, and no line begins at the end. */
  predicate Calm(s: seq<byte>, c: byte, d: byte) {
    && (forall i :: 0 <= i < |s| - 1 && s[i] == NEWLINE ==> s[i + 1] != c && s[i + 1] != d)
    && (s != [] ==> s[|s| - 1] != NEWLINE)
  }

  lemma CalmJoin(a: seq<byte>, b: seq<byte>, c: byte, d: byte)
    requires Calm(a, c, d) && Calm(b, c, d)
    ensures Calm(a + b, c, d)
  {
    var s := a + b;
    forall i | 0 <= i < |s| - 1 && s[i] == NEWLINE ensures s[i + 1] != c && s[i + 1] != d {
      if i < |a| {
        assert s[i] == a[i];
        assert i < |a| - 1 && s[i + 1] == a[i + 1];
      } else {
        assert s[i] == b[i - |a|] && s[i + 1] == b[i + 1 - |a|];
      }
    }
  }

  lemma FieldIsCalm(s: seq<byte>, c: byte, d: byte)
    requires Without(s, NEWLINE)
    ensures Calm(s, c, d)
  {
  }

  /** A text that opens a line with one of two bytes, and for the length of a key opens no other such. */
  predicate Opens(t: seq<byte>, c: byte, d: byte) { Starts(t, NEWLINE) && |t| > 1 && (t[1] == c || t[1] == d) }

  predicate Quiet(t: seq<byte>, c: byte, d: byte) {
    |t| >= 34 && forall i :: 1 <= i <= 32 && t[i] == NEWLINE ==> t[i + 1] != c && t[i + 1] != d
  }

  lemma CalmIsQuiet(x: seq<byte>, rest: seq<byte>, c: byte, d: byte)
    requires Calm(x, c, d) && |x| >= 33
    ensures Quiet([NEWLINE] + (x + rest), c, d)
  {
    var t := [NEWLINE] + (x + rest);
    assert forall i :: 1 <= i <= 33 ==> t[i] == x[i - 1];
  }

  /** A key ends where a text of another length could not: behind a shorter text the rest of the key
      would have to open a second line of the same kind within 32 bytes. */
  lemma KeyOrText(key: seq<byte>, text: seq<byte>, t: seq<byte>, t': seq<byte>, c: byte, d: byte)
    requires |key| == 32 && Without(text, NEWLINE) && Opens(t, c, d) && Opens(t', c, d) && Quiet(t', c, d)
    requires key + t == text + t'
    ensures key == text && t == t'
  {
    var u := key + t;
    assert u == text + t';
    assert u[32] == t[0] && u[33] == t[1];
    if |text| == 32 {
      SplitEqual(key, text, t, t');
    }
  }

  /** The line of an asset id, which may be raw bytes. */
  lemma IdEqual(tag: seq<byte>, v: Option<seq<byte>>, v': Option<seq<byte>>, t: seq<byte>, t': seq<byte>, c: byte, d: byte)
    requires (v.Some? ==> Field(v.value) || |v.value| == 32) && (v'.Some? ==> Field(v'.value) || |v'.value| == 32)
    requires Opens(t, c, d) && Opens(t', c, d) && Quiet(t, c, d) && Quiet(t', c, d) && !(tag <= t) && !(tag <= t')
    requires TaggedThen(tag, v, t) == TaggedThen(tag, v', t')
    ensures v == v' && t == t'
  {
    hide Printable, Without, Quiet;
    if v.Some? && v'.Some? {
      SplitEqual(tag, tag, v.value + t, v'.value + t');
      if |v.value| == |v'.value| {
        SplitEqual(v.value, v'.value, t, t');
      } else if !Field(v.value) {
        KeyOrText(v.value, v'.value, t, t', c, d);
      } else if !Field(v'.value) {
        KeyOrText(v'.value, v.value, t', t, c, d);
      } else {
        NextField(v.value, v'.value, t, t', NEWLINE);
      }
    } else if v.Some? {
      TagPrefix(tag, v.value + t);
    } else if v'.Some? {
      TagPrefix(tag, v'.value + t');
    }
  }

  lemma TaggedStarts(tag: seq<byte>, v: Option<seq<byte>>, t: seq<byte>)
    requires Starts(tag, NEWLINE) && Starts(t, NEWLINE)
    ensures Starts(TaggedThen(tag, v, t), NEWLINE)
  {
  }

  lemma SameLetters(x: byte, y: byte)
    requires HexLetter(x / 16) == HexLetter(y / 16) && HexLetter(x % 16) == HexLetter(y % 16)
    ensures x == y
  {
    DivMod(x, 16);
    DivMod(y, 16);
  }

  lemma {:induction false} HexInjective(a: seq<byte>, b: seq<byte>)
    requires |a| == |b| && HexText(a) == HexText(b)
    ensures a == b
  {
    hide HexLetter;
    if a != [] {
      var n := |a| - 1;
      var da := [HexLetter(a[n] / 16), HexLetter(a[n] % 16)];
      var db := [HexLetter(b[n] / 16), HexLetter(b[n] % 16)];
      SplitEqual(HexText(a[..n]), HexText(b[..n]), da, db);
      assert da[0] == db[0] && da[1] == db[1];
      SameLetters(a[n], b[n]);
      HexInjective(a[..n], b[..n]);
      assert a == a[..n] + [a[n]] && b == b[..n] + [b[n]];
    }
  }

  lemma HexedInjective(a: Bytes32, b: Bytes32)
    requires Hexed(a) == Hexed(b)
    ensures a == b
  {
    hide HexText;
    if !IsZero(a) && !IsZero(b) {
      HexInjective(a, b);
    }
  }

  lemma AsciiInjective(a: string, b: string)
    requires (forall i :: 0 <= i < |a| ==> (a[i] as int) < 256) && (forall i :: 0 <= i < |b| ==> (b[i] as int) < 256)
    requires Ascii(a) == Ascii(b)
    ensures a == b
  {
    assert |a| == |Ascii(a)| == |b|;
    forall i | 0 <= i < |a| ensures a[i] == b[i] {
      assert Ascii(a)[i] == Ascii(b)[i];
    }
  }

  lemma DecInjective(a: nat, b: nat)
    requires Decimal.Dec(a) == Decimal.Dec(b)
    ensures a == b
  {
    hide Decimal.Dec;
    Decimal.DecValue(a);
    Decimal.DecValue(b);
  }

  lemma NumberInjective(a: nat, b: nat)
    requires Number(a) == Number(b)
    ensures a == b
  {
    hide Decimal.Dec, Ascii;
    AsciiInjective(Decimal.Dec(a), Decimal.Dec(b));
    DecInjective(a, b);
  }

  lemma ExpiryInjective(a: i64, b: i64)
    requires Expiry(a) == Expiry(b)
    ensures a == b
  {
    hide Decimal.Dec, Ascii;
    var x, y := Decimal.Dec(Magnitude(a)), Decimal.Dec(Magnitude(b));
    AsciiInjective(SignedText(a), SignedText(b));
    assert Decimal.IsDigit(x[0]) && Decimal.IsDigit(y[0]);
    assert SignedText(a)[0] == (if a < 0 then '-' else x[0]) && SignedText(b)[0] == (if b < 0 then '-' else y[0]);
    assert "" + x == x && "" + y == y && ("-" + x)[1..] == x && ("-" + y)[1..] == y;
    DecInjective(Magnitude(a), Magnitude(b));
  }

  lemma EstimateStarts()
    ensures Starts(ESTIMATED, NEWLINE) && Starts(INFORMATIONAL, SPACE) && Starts(PRICE_SOURCE, NEWLINE)
    ensures Starts(PRICE_OBSERVED, NEWLINE) && Starts(UNIX_SECONDS, SPACE)
  {
  }

  lemma SameEstimate(f: FiatEstimate, f': FiatEstimate, t: seq<byte>, t': seq<byte>)
    requires Word(f.amount) && Field(f.currency) && Field(f.source) && f.observedAt > 0
    requires Word(f'.amount) && Field(f'.currency) && Field(f'.source) && f'.observedAt > 0
    requires EstimateThen(Some(f), t) == EstimateThen(Some(f'), t')
    ensures f == f' && t == t'
  {
    hide Printable, Ascii, Without, Number;
    EstimateStarts();
    var a, a' := Number(f.observedAt) + (UNIX_SECONDS + t), Number(f'.observedAt) + (UNIX_SECONDS + t');
    var b, b' := f.source + (PRICE_OBSERVED + a), f'.source + (PRICE_OBSERVED + a');
    var c, c' := f.currency + (INFORMATIONAL + (PRICE_SOURCE + b)), f'.currency + (INFORMATIONAL + (PRICE_SOURCE + b'));
    SplitEqual(ESTIMATED, ESTIMATED, f.amount + ([SPACE] + c), f'.amount + ([SPACE] + c'));
    NextField(f.amount, f'.amount, [SPACE] + c, [SPACE] + c', SPACE);
    SplitEqual([SPACE], [SPACE], c, c');
    CurrencyEqual(f.currency, f'.currency, b, b');
    SplitEqual(PRICE_SOURCE, PRICE_SOURCE, b, b');
    StartsOn(PRICE_OBSERVED, a, NEWLINE);
    StartsOn(PRICE_OBSERVED, a', NEWLINE);
    NextField(f.source, f'.source, PRICE_OBSERVED + a, PRICE_OBSERVED + a', NEWLINE);
    SplitEqual(PRICE_OBSERVED, PRICE_OBSERVED, a, a');
    NumberIsWord(f.observedAt);
    NumberIsWord(f'.observedAt);
    StartsOn(UNIX_SECONDS, t, SPACE);
    StartsOn(UNIX_SECONDS, t', SPACE);
    NextField(Number(f.observedAt), Number(f'.observedAt), UNIX_SECONDS + t, UNIX_SECONDS + t', SPACE);
    NumberInjective(f.observedAt, f'.observedAt);
    SplitEqual(UNIX_SECONDS, UNIX_SECONDS, t, t');
  }

  /** The currency may hold spaces; what follows it has a fixed length up to the end of the line. */
  lemma CurrencyEqual(x: seq<byte>, y: seq<byte>, s: seq<byte>, t: seq<byte>)
    requires Field(x) && Field(y)
    requires x + (INFORMATIONAL + (PRICE_SOURCE + s)) == y + (INFORMATIONAL + (PRICE_SOURCE + t))
    ensures x == y && PRICE_SOURCE + s == PRICE_SOURCE + t
  {
    hide Printable, Ascii, Without;
    EstimateStarts();
    assert Without(INFORMATIONAL, NEWLINE) by { InformationalIsLine(); }
    var a, b := x + INFORMATIONAL, y + INFORMATIONAL;
    assert x + (INFORMATIONAL + (PRICE_SOURCE + s)) == a + (PRICE_SOURCE + s);
    assert y + (INFORMATIONAL + (PRICE_SOURCE + t)) == b + (PRICE_SOURCE + t);
    WithoutBoth(x, INFORMATIONAL, NEWLINE);
    WithoutBoth(y, INFORMATIONAL, NEWLINE);
    StartsOn(PRICE_SOURCE, s, NEWLINE);
    StartsOn(PRICE_SOURCE, t, NEWLINE);
    NextField(a, b, PRICE_SOURCE + s, PRICE_SOURCE + t, NEWLINE);
    assert |x| == |y|;
    SplitEqual(x, y, INFORMATIONAL, INFORMATIONAL);
  }

  lemma InformationalIsLine()
    ensures Without(INFORMATIONAL, NEWLINE)
  {
    hide Ascii;
    LineIsField(" (informational)");
  }

  lemma WithoutBoth(a: seq<byte>, b: seq<byte>, sep: byte)
    requires Without(a, sep) && Without(b, sep)
    ensures Without(a + b, sep)
  {
  }

  lemma EstimateEqual(s: Shown, s': Shown, t: seq<byte>, t': seq<byte>)
    requires Legible(s) && Legible(s') && !(ESTIMATED <= t) && !(ESTIMATED <= t')
    requires EstimateThen(s.fiat, t) == EstimateThen(s'.fiat, t')
    ensures s.fiat == s'.fiat && t == t'
  {
    hide Ascii, Field, Word, Number;
    if s.fiat.Some? && s'.fiat.Some? {
      SameEstimate(s.fiat.value, s'.fiat.value, t, t');
    }
  }

  lemma FooterStarts()
    ensures Starts(APPROVAL, NEWLINE) && Starts(SIGNATURE, SPACE) && Starts(SIGNATURES, SPACE)
    ensures |APPROVAL| > 1 && APPROVAL[1] == NEWLINE
  {
  }

  lemma FooterEqual(s: Shown, s': Shown)
    requires ReviewFooter(s) == ReviewFooter(s')
    ensures s.approvals == s'.approvals && s.policy == s'.policy && s.purpose == s'.purpose
  {
    hide Printable, Ascii, Without, HexText, Number;
    FooterStarts();
    var a, a' := PURPOSE + s.purpose, PURPOSE + s'.purpose;
    var b, b' := SIGNER_CHECK + (SEND_CHECK + a), SIGNER_CHECK + (SEND_CHECK + a');
    var c, c' := MARKER + (CATEGORY + (SEND_CATEGORY + b)), MARKER + (CATEGORY + (SEND_CATEGORY + b'));
    var d, d' := DISPLAY_PROFILE + (FULL_LABEL + ([NEWLINE] + c)), DISPLAY_PROFILE + (FULL_LABEL + ([NEWLINE] + c'));
    var e, e' := EXECUTION + (POLICY_COMMITMENT + (HexText(s.policy) + d)),
                 EXECUTION + (POLICY_COMMITMENT + (HexText(s'.policy) + d'));
    var n, n' := Number(s.approvals), Number(s'.approvals);
    SplitEqual(APPROVAL, APPROVAL, n + (Signatures(s.approvals) + e), n' + (Signatures(s'.approvals) + e'));
    NumberIsWord(s.approvals);
    NumberIsWord(s'.approvals);
    StartsOn(Signatures(s.approvals), e, SPACE);
    StartsOn(Signatures(s'.approvals), e', SPACE);
    NextField(n, n', Signatures(s.approvals) + e, Signatures(s'.approvals) + e', SPACE);
    NumberInjective(s.approvals, s'.approvals);
    SplitEqual(Signatures(s.approvals), Signatures(s.approvals), e, e');
    SplitEqual(EXECUTION, EXECUTION, POLICY_COMMITMENT + (HexText(s.policy) + d), POLICY_COMMITMENT + (HexText(s'.policy) + d'));
    SplitEqual(POLICY_COMMITMENT, POLICY_COMMITMENT, HexText(s.policy) + d, HexText(s'.policy) + d');
    SplitEqual(HexText(s.policy), HexText(s'.policy), d, d');
    HexInjective(s.policy, s'.policy);
    ClosingEqual(s.purpose, s'.purpose);
  }

  lemma ClosingEqual(x: seq<byte>, y: seq<byte>)
    requires DISPLAY_PROFILE + (FULL_LABEL + ([NEWLINE] + (MARKER + (CATEGORY + (SEND_CATEGORY + (SIGNER_CHECK
             + (SEND_CHECK + (PURPOSE + x))))))))
          == DISPLAY_PROFILE + (FULL_LABEL + ([NEWLINE] + (MARKER + (CATEGORY + (SEND_CATEGORY + (SIGNER_CHECK
             + (SEND_CHECK + (PURPOSE + y))))))))
    ensures x == y
  {
    hide Ascii, DISPLAY_PROFILE, FULL_LABEL, MARKER, CATEGORY, SEND_CATEGORY, SIGNER_CHECK, SEND_CHECK, PURPOSE;
    var a, a' := PURPOSE + x, PURPOSE + y;
    var b, b' := SIGNER_CHECK + (SEND_CHECK + a), SIGNER_CHECK + (SEND_CHECK + a');
    var c, c' := CATEGORY + (SEND_CATEGORY + b), CATEGORY + (SEND_CATEGORY + b');
    var d, d' := [NEWLINE] + (MARKER + c), [NEWLINE] + (MARKER + c');
    SplitEqual(DISPLAY_PROFILE, DISPLAY_PROFILE, FULL_LABEL + d, FULL_LABEL + d');
    SplitEqual(FULL_LABEL, FULL_LABEL, d, d');
    SplitEqual([NEWLINE], [NEWLINE], MARKER + c, MARKER + c');
    SplitEqual(MARKER, MARKER, c, c');
    SplitEqual(CATEGORY, CATEGORY, SEND_CATEGORY + b, SEND_CATEGORY + b');
    SplitEqual(SEND_CATEGORY, SEND_CATEGORY, b, b');
    SplitEqual(SIGNER_CHECK, SIGNER_CHECK, SEND_CHECK + a, SEND_CHECK + a');
    SplitEqual(SEND_CHECK, SEND_CHECK, a, a');
    SplitEqual(PURPOSE, PURPOSE, x, y);
  }

  lemma TagBytes()
    ensures |ASSET_ID| > 2 && |TEMPLATE| > 2 && |ESTIMATED| > 2 && |APPROVAL| > 2
    ensures Starts(ASSET_ID, NEWLINE) && Starts(TEMPLATE, NEWLINE) && Starts(ESTIMATED, NEWLINE) && Starts(APPROVAL, NEWLINE)
    ensures ASSET_ID[1] == 'A' as int && TEMPLATE[1] == ESTIMATED[1] == 'E' as int && APPROVAL[1] == NEWLINE
    ensures TEMPLATE[2] == 'x' as int && ESTIMATED[2] == 's' as int
  {
  }

  lemma CompactTagBytes()
    ensures |COMPACT_ASSET| > 1 && |COMPACT_EXEC| > 1 && |COMPACT_NET| > 1
    ensures Starts(COMPACT_ASSET, NEWLINE) && Starts(COMPACT_EXEC, NEWLINE) && Starts(COMPACT_NET, NEWLINE)
    ensures COMPACT_ASSET[1] == 'A' as int && COMPACT_EXEC[1] == 'E' as int && COMPACT_NET[1] == 'N' as int
  {
  }

  /** Each optional line of a full review begins differently from whatever may come in its place. */
  lemma OptionTags(s: Shown)
    ensures var f := ReviewFooter(s);
      var e := EstimateThen(s.fiat, f);
      var x := TaggedThen(TEMPLATE, Hexed(s.commitment), e);
      && Starts(f, NEWLINE) && Starts(e, NEWLINE) && Starts(x, NEWLINE) && Starts(OptionsThen(s, f), NEWLINE)
      && !(ESTIMATED <= f) && !(TEMPLATE <= e) && !(ASSET_ID <= x)
  {
    hide Ascii, Number, HexText, Hexed;
    TagBytes();
    var f := ReviewFooter(s);
    var f' := Number(s.approvals) + (Signatures(s.approvals) + (EXECUTION + (POLICY_COMMITMENT + (HexText(s.policy)
      + (DISPLAY_PROFILE + (FULL_LABEL + ([NEWLINE] + (MARKER + (CATEGORY + (SEND_CATEGORY + (SIGNER_CHECK + (SEND_CHECK
      + (PURPOSE + s.purpose)))))))))))));
    NotTag(ESTIMATED, APPROVAL, f', 1);
    NotTag(TEMPLATE, APPROVAL, f', 1);
    NotTag(ASSET_ID, APPROVAL, f', 1);
    StartsOn(APPROVAL, f', NEWLINE);
    EstimateTag(s.fiat, f);
    var e := EstimateThen(s.fiat, f);
    var h := Hexed(s.commitment);
    if h.Some? {
      NotTag(ASSET_ID, TEMPLATE, h.value + e, 1);
    }
    TaggedStarts(TEMPLATE, h, e);
    TaggedStarts(ASSET_ID, s.assetId, TaggedThen(TEMPLATE, h, e));
  }

  lemma EstimateTag(fiat: Option<FiatEstimate>, f: seq<byte>)
    requires Starts(f, NEWLINE) && !(TEMPLATE <= f) && !(ASSET_ID <= f)
    ensures var e := EstimateThen(fiat, f); Starts(e, NEWLINE) && !(TEMPLATE <= e) && !(ASSET_ID <= e)
  {
    hide Ascii, Number;
    TagBytes();
    if fiat.Some? {
      var v := fiat.value;
      var t := v.amount + ([SPACE] + (v.currency + (INFORMATIONAL + (PRICE_SOURCE + (v.source
        + (PRICE_OBSERVED + (Number(v.observedAt) + (UNIX_SECONDS + f))))))));
      NotTag(TEMPLATE, ESTIMATED, t, 2);
      NotTag(ASSET_ID, ESTIMATED, t, 1);
      StartsOn(ESTIMATED, t, NEWLINE);
    }
  }

  const E_BYTE: byte := 0x45
  const N_BYTE: byte := 0x4E

  /** A tag behind its newline. */
  function Line(tag: seq<byte>): seq<byte>
    requires tag != []
  {
    tag[1..]
  }

  lemma TagLine(tag: seq<byte>, t: seq<byte>)
    requires Starts(tag, NEWLINE)
    ensures tag + t == [NEWLINE] + (Line(tag) + t)
  {
    assert tag == [NEWLINE] + Line(tag);
    Assoc([NEWLINE], Line(tag), t);
  }

  lemma TagLengths()
    ensures |TEMPLATE| == 21 && |ESTIMATED| == 22 && |INFORMATIONAL| == 16 && |APPROVAL| == 19
    ensures |SIGNATURE| == 19 && |SIGNATURES| == 20
    ensures |COMPACT_EXEC| == 6 && |COMPACT_NET| == 5 && |COMPACT_FROM| == 6 && |COMPACT_APPROVAL| == 10 && |COMPACT_PROPOSAL| == 10
  {
  }

  lemma TailIsLine(s: string)
    requires s != "" && forall i :: 1 <= i < |s| ==> ' ' <= s[i] <= '~'
    ensures Without(Line(Ascii(s)), NEWLINE)
  {
  }

  lemma TagCalm(s: string, c: byte, d: byte)
    requires |s| > 1 && s[0] == '\n' && forall i :: 1 <= i < |s| ==> ' ' <= s[i] <= '~'
    requires s[1] as int != c && s[1] as int != d
    ensures Calm(Ascii(s), c, d)
  {
  }

  lemma OptionLinesCalm()
    ensures Calm(Line(TEMPLATE), E_BYTE, NEWLINE) && Calm(Line(ESTIMATED), E_BYTE, NEWLINE)
  {
    hide Ascii, Line, Calm, Without;
    TailIsLine("\nExecution template: ");
    TailIsLine("\nEstimated at review: ");
    FieldIsCalm(Line(TEMPLATE), E_BYTE, NEWLINE);
    FieldIsCalm(Line(ESTIMATED), E_BYTE, NEWLINE);
  }

  lemma ApprovalCalm()
    ensures APPROVAL != [] && Calm(Line(APPROVAL), E_BYTE, NEWLINE)
  {
    hide Ascii;
    ApprovalLine();
    LineIsField("POLICY");
    LineIsField("Approval: ");
    PolicyStarts();
    var a, b := [NEWLINE] + Ascii("POLICY"), [NEWLINE] + Ascii("Approval: ");
    CalmJoin(a, b, E_BYTE, NEWLINE);
  }

  lemma ApprovalLine()
    ensures APPROVAL != [] && Line(APPROVAL) == ([NEWLINE] + Ascii("POLICY")) + ([NEWLINE] + Ascii("Approval: "))
  {
  }

  lemma PolicyStarts()
    ensures |Ascii("POLICY")| == 6 && Ascii("POLICY")[0] == 0x50 && |Ascii("Approval: ")| == 10 && Ascii("Approval: ")[0] == 0x41
  {
  }

  lemma SignaturesField(n: byte)
    ensures Without(Signatures(n), NEWLINE) && |Signatures(n)| >= 19
  {
    hide Ascii;
    LineIsField(" signature required");
    LineIsField(" signatures required");
    TagLengths();
  }

  /** Within the length of a key, nothing after an asset id opens a second such line. */
  lemma OptionsQuiet(s: Shown)
    requires Legible(s)
    ensures var x := TaggedThen(TEMPLATE, Hexed(s.commitment), EstimateThen(s.fiat, ReviewFooter(s)));
      Opens(x, E_BYTE, NEWLINE) && Quiet(x, E_BYTE, NEWLINE)
  {
    hide Ascii, Number, HexText, Calm, Quiet, Opens, Line, Printable, Without, Field, ReviewFooter, EstimateThen,
      TEMPLATE, ESTIMATED, APPROVAL;
    TagBytes();
    OptionLinesCalm();
    var h, e := Hexed(s.commitment), EstimateThen(s.fiat, ReviewFooter(s));
    if h.Some? {
      HexQuiet(TEMPLATE, s.commitment, e, E_BYTE, NEWLINE);
    } else if s.fiat.Some? {
      EstimateQuiet(s.fiat.value, ReviewFooter(s));
    } else {
      FooterQuiet(s);
      NoEstimateThen(ReviewFooter(s));
    }
  }

  lemma HexQuiet(tag: seq<byte>, commitment: Bytes32, t: seq<byte>, c: byte, d: byte)
    requires Starts(tag, NEWLINE) && |tag| > 1 && (tag[1] == c || tag[1] == d) && Calm(Line(tag), c, d)
    requires !IsZero(commitment)
    ensures var x := tag + (HexText(commitment) + t); Opens(x, c, d) && Quiet(x, c, d)
  {
    hide HexText, Calm, Quiet, Line, Printable, Without;
    var h := HexText(commitment);
    HexIsWord(commitment);
    FieldIsCalm(h, c, d);
    CalmJoin(Line(tag), h, c, d);
    TagLine(tag, h + t);
    Assoc(Line(tag), h, t);
    CalmIsQuiet(Line(tag) + h, t, c, d);
  }

  lemma LineSize(tag: seq<byte>)
    requires tag != []
    ensures |Line(tag)| == |tag| - 1
  {
  }

  lemma NoEstimateThen(t: seq<byte>)
    ensures EstimateThen(None, t) == t
  {
  }

  lemma EstimateQuiet(f: FiatEstimate, t: seq<byte>)
    requires Field(f.amount) && Field(f.currency)
    ensures var x := EstimateThen(Some(f), t); Opens(x, E_BYTE, NEWLINE) && Quiet(x, E_BYTE, NEWLINE)
  {
    hide Ascii, Number, Calm, Quiet, Line, Printable, Without, ESTIMATED, INFORMATIONAL, PRICE_SOURCE, PRICE_OBSERVED, UNIX_SECONDS;
    TagBytes();
    TagLengths();
    OptionLinesCalm();
    InformationalIsLine();
    SpaceIsLine();
    var rest := PRICE_SOURCE + (f.source + (PRICE_OBSERVED + (Number(f.observedAt) + (UNIX_SECONDS + t))));
    var x := [SPACE] + (f.currency + INFORMATIONAL);
    WithoutBoth(f.currency, INFORMATIONAL, NEWLINE);
    WithoutBoth([SPACE], f.currency + INFORMATIONAL, NEWLINE);
    WithoutBoth(f.amount, x, NEWLINE);
    FieldIsCalm(f.amount + x, E_BYTE, NEWLINE);
    CalmJoin(Line(ESTIMATED), f.amount + x, E_BYTE, NEWLINE);
    LineSize(ESTIMATED);
    Assoc(f.currency, INFORMATIONAL, rest);
    Assoc([SPACE], f.currency + INFORMATIONAL, rest);
    Assoc(f.amount, x, rest);
    TagLine(ESTIMATED, f.amount + x + rest);
    Assoc(Line(ESTIMATED), f.amount + x, rest);
    CalmIsQuiet(Line(ESTIMATED) + (f.amount + x), rest, E_BYTE, NEWLINE);
  }

  lemma NumberSize(n: int)
    ensures Number(n) != []
  {
  }

  lemma SpaceIsLine()
    ensures Without([SPACE], NEWLINE)
  {
  }

  lemma FooterQuiet(s: Shown)
    ensures Opens(ReviewFooter(s), E_BYTE, NEWLINE) && Quiet(ReviewFooter(s), E_BYTE, NEWLINE)
  {
    hide Ascii, Number, HexText, Calm, Quiet, Line, Printable, Without, Signatures, APPROVAL, EXECUTION, POLICY_COMMITMENT,
      DISPLAY_PROFILE, FULL_LABEL, MARKER, CATEGORY, SEND_CATEGORY, SIGNER_CHECK, SEND_CHECK, PURPOSE;
    TagBytes();
    TagLengths();
    ApprovalCalm();
    NumberIsWord(s.approvals);
    SignaturesField(s.approvals);
    var n, g := Number(s.approvals), Signatures(s.approvals);
    var rest := EXECUTION + (POLICY_COMMITMENT + (HexText(s.policy) + (DISPLAY_PROFILE + (FULL_LABEL + ([NEWLINE] + (MARKER
      + (CATEGORY + (SEND_CATEGORY + (SIGNER_CHECK + (SEND_CHECK + (PURPOSE + s.purpose)))))))))));
    NumberSize(s.approvals);
    WithoutBoth(n, g, NEWLINE);
    FieldIsCalm(n + g, E_BYTE, NEWLINE);
    CalmJoin(Line(APPROVAL), n + g, E_BYTE, NEWLINE);
    LineSize(APPROVAL);
    Assoc(n, g, rest);
    TagLine(APPROVAL, n + g + rest);
    Assoc(Line(APPROVAL), n + g, rest);
    CalmIsQuiet(Line(APPROVAL) + (n + g), rest, E_BYTE, NEWLINE);
  }

  lemma OptionsEqual(s: Shown, s': Shown)
    requires Legible(s) && Legible(s') && IdLegible(s) && IdLegible(s')
    requires OptionsThen(s, ReviewFooter(s)) == OptionsThen(s', ReviewFooter(s'))
    ensures s.assetId == s'.assetId && s.commitment == s'.commitment && s.fiat == s'.fiat
    ensures ReviewFooter(s) == ReviewFooter(s')
  {
    hide Ascii, ReviewFooter, EstimateThen, TaggedThen, Hexed, Word, Field, Starts, Quiet, Opens;
    OptionTags(s);
    OptionTags(s');
    HexedField(s.commitment);
    HexedField(s'.commitment);
    var f, f' := ReviewFooter(s), ReviewFooter(s');
    var e, e' := EstimateThen(s.fiat, f), EstimateThen(s'.fiat, f');
    var h, h' := Hexed(s.commitment), Hexed(s'.commitment);
    OptionsQuiet(s);
    OptionsQuiet(s');
    IdEqual(ASSET_ID, s.assetId, s'.assetId, TaggedThen(TEMPLATE, h, e), TaggedThen(TEMPLATE, h', e'), E_BYTE, NEWLINE);
    TaggedEqual(TEMPLATE, h, h', e, e');
    HexedInjective(s.commitment, s'.commitment);
    EstimateEqual(s, s', f, f');
  }

  lemma HexedField(c: Bytes32)
    ensures Hexed(c).Some? ==> Field(Hexed(c).value)
  {
    hide Printable, Without, Hexed;
    HexedPrints(c);
  }

  lemma FullTextsEqual(s: Shown, s': Shown)
    requires Legible(s) && Legible(s') && IdLegible(s) && IdLegible(s')
    requires FullText(s) == FullText(s')
    ensures FullView(s) == FullView(s')
  {
    hide Ascii, Legible, IdLegible, LeadThen, DetailsThen, OptionsThen, ReviewFooter;
    var o, o' := OptionsThen(s, ReviewFooter(s)), OptionsThen(s', ReviewFooter(s'));
    OptionTags(s);
    OptionTags(s');
    DetailsStart(s, o);
    DetailsStart(s', o');
    LeadEqual(s, s', DetailsThen(s, o), DetailsThen(s', o'));
    DetailsEqual(s, s', o, o');
    OptionsEqual(s, s');
    FooterEqual(s, s');
  }

  lemma DetailsStart(s: Shown, t: seq<byte>)
    ensures Starts(DetailsThen(s, t), NEWLINE)
  {
    hide Ascii;
    LeadStarts();
  }

  /** Full texts are equal exactly when they show the same. */
  lemma FullTextIff(s: Shown, s': Shown)
    requires Legible(s) && Legible(s') && IdLegible(s) && IdLegible(s')
    ensures FullText(s) == FullText(s') <==> FullView(s) == FullView(s')
  {
    if FullView(s) == FullView(s') {
      FullShows(s);
      FullShows(s');
    } else if FullText(s) == FullText(s') {
      FullTextsEqual(s, s');
    }
  }

  lemma FullShows(s: Shown)
    ensures FullText(FullView(s)) == FullText(s)
  {
    hide Ascii, HexText, Number;
  }

  lemma CompactLeadEqual(s: Shown, s': Shown, t: seq<byte>, t': seq<byte>)
    requires Legible(s) && Legible(s') && Starts(t, NEWLINE) && Starts(t', NEWLINE)
    requires CompactLeadThen(s, t) == CompactLeadThen(s', t')
    ensures s.amount == s'.amount && s.asset == s'.asset && s.recipient == s'.recipient && t == t'
  {
    hide Printable, Ascii, Without;
    LeadStarts();
    var w, w' := COMPACT_TO + (s.recipient + t), COMPACT_TO + (s'.recipient + t');
    var v, v' := s.amount + ([SPACE] + (s.asset + w)), s'.amount + ([SPACE] + (s'.asset + w'));
    SplitEqual(COMPACT_START, COMPACT_START, COMPACT_SEND + v, COMPACT_SEND + v');
    SplitEqual(COMPACT_SEND, COMPACT_SEND, v, v');
    NextField(s.amount, s'.amount, [SPACE] + (s.asset + w), [SPACE] + (s'.asset + w'), SPACE);
    SplitEqual([SPACE], [SPACE], s.asset + w, s'.asset + w');
    StartsOn(COMPACT_TO, s.recipient + t, NEWLINE);
    StartsOn(COMPACT_TO, s'.recipient + t', NEWLINE);
    NextField(s.asset, s'.asset, w, w', NEWLINE);
    SplitEqual(COMPACT_TO, COMPACT_TO, s.recipient + t, s'.recipient + t');
    NextField(s.recipient, s'.recipient, t, t', NEWLINE);
  }

  lemma CompactOptionTags(s: Shown)
    ensures var f := CompactFooter(s);
      var x := TaggedThen(COMPACT_EXEC, Hexed(s.commitment), f);
      && Starts(f, NEWLINE) && Starts(x, NEWLINE) && Starts(CompactOptionsThen(s, f), NEWLINE)
      && !(COMPACT_EXEC <= f) && !(COMPACT_ASSET <= x)
  {
    hide Ascii, Number, HexText, Hexed, Expiry;
    CompactTagBytes();
    var f := CompactFooter(s);
    var f' := s.network + (COMPACT_FROM + (s.wallet + (COMPACT_APPROVAL + (Number(s.approvals) + (COMPACT_PROPOSAL
      + (Number(s.proposalIndex) + (COMPACT_EXPIRES + (Expiry(s.expiresAt) + (COMPACT_POLICY + (HexText(s.policy)
      + (COMPACT_PROFILE + (COMPACT_LABEL + ([NEWLINE] + MARKER)))))))))))));
    NotTag(COMPACT_EXEC, COMPACT_NET, f', 1);
    NotTag(COMPACT_ASSET, COMPACT_NET, f', 1);
    StartsOn(COMPACT_NET, f', NEWLINE);
    var h := Hexed(s.commitment);
    if h.Some? {
      NotTag(COMPACT_ASSET, COMPACT_EXEC, h.value + f, 1);
    }
    TaggedStarts(COMPACT_EXEC, h, f);
    TaggedStarts(COMPACT_ASSET, s.assetId, TaggedThen(COMPACT_EXEC, h, f));
  }

  lemma CompactStarts()
    ensures Starts(COMPACT_FROM, NEWLINE) && Starts(COMPACT_APPROVAL, NEWLINE) && Starts(COMPACT_PROPOSAL, NEWLINE)
    ensures Starts(COMPACT_EXPIRES, NEWLINE) && Starts(COMPACT_POLICY, NEWLINE)
  {
  }

  lemma CompactFooterEqual(s: Shown, s': Shown)
    requires Legible(s) && Legible(s') && CompactFooter(s) == CompactFooter(s')
    ensures s.network == s'.network && s.wallet == s'.wallet
    ensures CompactTermsThen(s) == CompactTermsThen(s')
  {
    hide Printable, Ascii, Without, HexText, Number, Expiry;
    CompactStarts();
    var c, c' := CompactTermsThen(s), CompactTermsThen(s');
    SplitEqual(COMPACT_NET, COMPACT_NET, s.network + (COMPACT_FROM + (s.wallet + c)), s'.network + (COMPACT_FROM + (s'.wallet + c')));
    StartsOn(COMPACT_FROM, s.wallet + c, NEWLINE);
    StartsOn(COMPACT_FROM, s'.wallet + c', NEWLINE);
    NextField(s.network, s'.network, COMPACT_FROM + (s.wallet + c), COMPACT_FROM + (s'.wallet + c'), NEWLINE);
    SplitEqual(COMPACT_FROM, COMPACT_FROM, s.wallet + c, s'.wallet + c');
    NextField(s.wallet, s'.wallet, c, c', NEWLINE);
  }

  /** The numbers at the end of a compact review. */
  function CompactTermsThen(s: Shown): seq<byte> {
    COMPACT_APPROVAL + (Number(s.approvals) + (COMPACT_PROPOSAL + (Number(s.proposalIndex) + (COMPACT_EXPIRES
    + (Expiry(s.expiresAt) + (COMPACT_POLICY + (HexText(s.policy) + (COMPACT_PROFILE + (COMPACT_LABEL
    + ([NEWLINE] + MARKER))))))))))
  }

  lemma CompactTermsEqual(s: Shown, s': Shown)
    requires CompactTermsThen(s) == CompactTermsThen(s')
    ensures s.approvals == s'.approvals && s.proposalIndex == s'.proposalIndex && s.expiresAt == s'.expiresAt
    ensures s.policy == s'.policy
  {
    hide Printable, Ascii, Without, HexText, Number, Expiry;
    CompactStarts();
    var last := COMPACT_PROFILE + (COMPACT_LABEL + ([NEWLINE] + MARKER));
    var a, a' := COMPACT_POLICY + (HexText(s.policy) + last), COMPACT_POLICY + (HexText(s'.policy) + last);
    var b, b' := COMPACT_EXPIRES + (Expiry(s.expiresAt) + a), COMPACT_EXPIRES + (Expiry(s'.expiresAt) + a');
    var c, c' := COMPACT_PROPOSAL + (Number(s.proposalIndex) + b), COMPACT_PROPOSAL + (Number(s'.proposalIndex) + b');
    SplitEqual(COMPACT_APPROVAL, COMPACT_APPROVAL, Number(s.approvals) + c, Number(s'.approvals) + c');
    NextNumber(s.approvals, s'.approvals, COMPACT_PROPOSAL, Number(s.proposalIndex) + b, Number(s'.proposalIndex) + b');
    NextNumber(s.proposalIndex, s'.proposalIndex, COMPACT_EXPIRES, Expiry(s.expiresAt) + a, Expiry(s'.expiresAt) + a');
    StartsOn(COMPACT_POLICY, HexText(s.policy) + last, NEWLINE);
    StartsOn(COMPACT_POLICY, HexText(s'.policy) + last, NEWLINE);
    ExpiryIsWord(s.expiresAt);
    ExpiryIsWord(s'.expiresAt);
    NextField(Expiry(s.expiresAt), Expiry(s'.expiresAt), a, a', NEWLINE);
    ExpiryInjective(s.expiresAt, s'.expiresAt);
    SplitEqual(COMPACT_POLICY, COMPACT_POLICY, HexText(s.policy) + last, HexText(s'.policy) + last);
    SplitEqual(HexText(s.policy), HexText(s'.policy), last, last);
    HexInjective(s.policy, s'.policy);
  }

  /** A number up to the next tag. */
  lemma NextNumber(n: nat, n': nat, tag: seq<byte>, t: seq<byte>, t': seq<byte>)
    requires Starts(tag, NEWLINE) && Number(n) + (tag + t) == Number(n') + (tag + t')
    ensures n == n' && t == t'
  {
    hide Printable, Without, Number;
    NumberIsWord(n);
    NumberIsWord(n');
    StartsOn(tag, t, NEWLINE);
    StartsOn(tag, t', NEWLINE);
    NextField(Number(n), Number(n'), tag + t, tag + t', NEWLINE);
    NumberInjective(n, n');
    SplitEqual(tag, tag, t, t');
  }

  lemma CompactLinesCalm()
    ensures Calm(Line(COMPACT_EXEC), E_BYTE, N_BYTE) && Calm(Line(COMPACT_NET), E_BYTE, N_BYTE)
    ensures Calm(COMPACT_FROM, E_BYTE, N_BYTE) && Calm(COMPACT_APPROVAL, E_BYTE, N_BYTE) && Calm(COMPACT_PROPOSAL, E_BYTE, N_BYTE)
  {
    hide Ascii, Line, Calm, Without;
    TailIsLine("\nEXEC ");
    TailIsLine("\nNET ");
    FieldIsCalm(Line(COMPACT_EXEC), E_BYTE, N_BYTE);
    FieldIsCalm(Line(COMPACT_NET), E_BYTE, N_BYTE);
    TagCalm("\nFROM ", E_BYTE, N_BYTE);
    TagCalm("\nAPPROVAL ", E_BYTE, N_BYTE);
    TagCalm("\nPROPOSAL ", E_BYTE, N_BYTE);
  }

  lemma CompactQuiet(s: Shown)
    requires Legible(s)
    ensures var x := TaggedThen(COMPACT_EXEC, Hexed(s.commitment), CompactFooter(s));
      Opens(x, E_BYTE, N_BYTE) && Quiet(x, E_BYTE, N_BYTE)
  {
    hide Ascii, Number, HexText, Calm, Quiet, Opens, Line, Printable, Without, CompactFooter, COMPACT_EXEC, COMPACT_NET;
    CompactTagBytes();
    CompactLinesCalm();
    var h, f := Hexed(s.commitment), CompactFooter(s);
    if h.Some? {
      HexQuiet(COMPACT_EXEC, s.commitment, f, E_BYTE, N_BYTE);
    } else {
      CompactFooterQuiet(s);
    }
  }

  lemma CompactFooterQuiet(s: Shown)
    requires Legible(s)
    ensures Opens(CompactFooter(s), E_BYTE, N_BYTE) && Quiet(CompactFooter(s), E_BYTE, N_BYTE)
  {
    hide Ascii, Number, HexText, Expiry, Calm, Quiet, Line, Printable, Without, COMPACT_NET, COMPACT_FROM, COMPACT_APPROVAL,
      COMPACT_PROPOSAL, COMPACT_EXPIRES, COMPACT_POLICY, COMPACT_PROFILE, COMPACT_LABEL, MARKER;
    CompactTagBytes();
    TagLengths();
    CompactLinesCalm();
    NumberIsWord(s.approvals);
    NumberSize(s.approvals);
    FieldIsCalm(Number(s.approvals), E_BYTE, N_BYTE);
    FieldIsCalm(s.network, E_BYTE, N_BYTE);
    FieldIsCalm(s.wallet, E_BYTE, N_BYTE);
    var rest := Number(s.proposalIndex) + (COMPACT_EXPIRES + (Expiry(s.expiresAt) + (COMPACT_POLICY + (HexText(s.policy)
      + (COMPACT_PROFILE + (COMPACT_LABEL + ([NEWLINE] + MARKER)))))));
    var x2 := Number(s.approvals) + COMPACT_PROPOSAL;
    var x1 := s.wallet + (COMPACT_APPROVAL + x2);
    var x := Line(COMPACT_NET) + (s.network + (COMPACT_FROM + x1));
    CalmJoin(Number(s.approvals), COMPACT_PROPOSAL, E_BYTE, N_BYTE);
    CalmJoin(COMPACT_APPROVAL, x2, E_BYTE, N_BYTE);
    CalmJoin(s.wallet, COMPACT_APPROVAL + x2, E_BYTE, N_BYTE);
    CalmJoin(COMPACT_FROM, x1, E_BYTE, N_BYTE);
    CalmJoin(s.network, COMPACT_FROM + x1, E_BYTE, N_BYTE);
    CalmJoin(Line(COMPACT_NET), s.network + (COMPACT_FROM + x1), E_BYTE, N_BYTE);
    LineSize(COMPACT_NET);
    Assoc(Number(s.approvals), COMPACT_PROPOSAL, rest);
    Assoc(COMPACT_APPROVAL, x2, rest);
    Assoc(s.wallet, COMPACT_APPROVAL + x2, rest);
    Assoc(COMPACT_FROM, x1, rest);
    Assoc(s.network, COMPACT_FROM + x1, rest);
    Assoc(Line(COMPACT_NET), s.network + (COMPACT_FROM + x1), rest);
    TagLine(COMPACT_NET, s.network + (COMPACT_FROM + x1) + rest);
    CalmIsQuiet(x, rest, E_BYTE, N_BYTE);
  }

  lemma CompactTextsEqual(s: Shown, s': Shown)
    requires Legible(s) && Legible(s') && IdLegible(s) && IdLegible(s')
    requires CompactText(s) == CompactText(s')
    ensures CompactView(s) == CompactView(s')
  {
    hide Ascii, Legible, CompactLeadThen, CompactFooter, TaggedThen, Hexed, Word, Field, Starts, CompactTermsThen, Quiet, Opens;
    CompactOptionTags(s);
    CompactOptionTags(s');
    var f, f' := CompactFooter(s), CompactFooter(s');
    var h, h' := Hexed(s.commitment), Hexed(s'.commitment);
    CompactLeadEqual(s, s', CompactOptionsThen(s, f), CompactOptionsThen(s', f'));
    HexedField(s.commitment);
    HexedField(s'.commitment);
    CompactQuiet(s);
    CompactQuiet(s');
    IdEqual(COMPACT_ASSET, s.assetId, s'.assetId, TaggedThen(COMPACT_EXEC, h, f), TaggedThen(COMPACT_EXEC, h', f'), E_BYTE, N_BYTE);
    TaggedEqual(COMPACT_EXEC, h, h', f, f');
    HexedInjective(s.commitment, s'.commitment);
    CompactFooterEqual(s, s');
    CompactTermsEqual(s, s');
  }

  /** Compact texts are equal exactly when they show the same. */
  lemma CompactTextIff(s: Shown, s': Shown)
    requires Legible(s) && Legible(s') && IdLegible(s) && IdLegible(s')
    ensures CompactText(s) == CompactText(s') <==> CompactView(s) == CompactView(s')
  {
    if CompactView(s) == CompactView(s') {
      CompactShows(s);
      CompactShows(s');
    } else if CompactText(s) == CompactText(s') {
      CompactTextsEqual(s, s');
    }
  }

  lemma CompactShows(s: Shown)
    ensures CompactText(CompactView(s)) == CompactText(s)
  {
    hide Ascii, HexText, Number, Expiry;
  }

  // ----- What equal documents agree on -----

  /** The part of a transfer that both documents show. */
  predicate SameTransfer(q: Request, wallet: seq<byte>, q': Request, wallet': seq<byte>)
    requires q.body.SendBody? && q'.body.SendBody?
  {
    var r, r', c, c' := q.body.row, q'.body.row, q.common, q'.common;
    && wallet == wallet'
    && r.rawAmount * Pow(10, r'.decimals) == r'.rawAmount * Pow(10, r.decimals)
    && r.displayAsset == r'.displayAsset
    && IdentityText(r.recipientEncoding, r.recipient) == IdentityText(r'.recipientEncoding, r'.recipient)
    && c.network.DisplayName() == c'.network.DisplayName()
    && r.assetEncoding.Text? == r'.assetEncoding.Text? && (!r.assetEncoding.Text? ==> r.asset == r'.asset)
    && q.body.executionCommitment == q'.body.executionCommitment
    && c.approvalRequired == c'.approvalRequired && c.policyCommitment == c'.policyCommitment
  }

  /** An absent reason reads like the reason `Not provided`. */
  predicate SameReason(a: seq<byte>, b: seq<byte>) {
    a == b || (a == [] && b == NOT_PROVIDED) || (a == NOT_PROVIDED && b == [])
  }

  ghost predicate Reviewable(q: Request, wallet: seq<byte>) {
    Accepted(q) && q.body.SendBody? && ValidateVisibleAscii(wallet, 64, false).Ok?
  }

  lemma SameShown(q: Request, wallet: seq<byte>, q': Request, wallet': seq<byte>)
    requires Reviewable(q, wallet) && Reviewable(q', wallet')
    ensures var s, s' := ShownOf(q, wallet), ShownOf(q', wallet');
      && (SameTransfer(q, wallet, q', wallet') <==>
            s.wallet == s'.wallet && s.amount == s'.amount && s.asset == s'.asset && s.recipient == s'.recipient
            && s.network == s'.network && s.assetId == s'.assetId && s.commitment == s'.commitment
            && s.approvals == s'.approvals && s.policy == s'.policy)
      && (SameReason(q.reason, q'.reason) <==> s.purpose == s'.purpose)
  {
    hide Ascii, IdentityText, Visible, Network.DisplayName, AmountBytes, Pow;
    AmountsEqual(q.body.row, q'.body.row);
    NamesEqual(q.common.network, q'.common.network);
  }

  lemma AmountsEqual(r: TransferRow, r': TransferRow)
    ensures AmountBytes(r) == AmountBytes(r')
            <==> r.rawAmount * Pow(10, r'.decimals) == r'.rawAmount * Pow(10, r.decimals)
  {
    hide Ascii, Decimal.AmountText, Pow;
    AmountIsAscii(r);
    AmountIsAscii(r');
    if AmountBytes(r) == AmountBytes(r') {
      AsciiInjective(Decimal.AmountText(r.rawAmount, r.decimals), Decimal.AmountText(r'.rawAmount, r'.decimals));
    }
    Decimal.AmountTextIff(r.rawAmount, r.decimals, r'.rawAmount, r'.decimals);
  }

  lemma AmountIsAscii(r: TransferRow)
    ensures var s := Decimal.AmountText(r.rawAmount, r.decimals); forall i :: 0 <= i < |s| ==> (s[i] as int) < 256
  {
    hide Decimal.Dec, Decimal.Padded, Decimal.TrimEndZeros, Pow;
    PowPositive(10, r.decimals);
    var padded := Decimal.Padded(r.rawAmount % Pow(10, r.decimals), r.decimals);
    var f := Decimal.TrimEndZeros(padded);
    assert forall i :: 0 <= i < |f| ==> f[i] == padded[i];
  }

  lemma NameIsAscii(n: Network)
    ensures var s := n.DisplayName(); forall i :: 0 <= i < |s| ==> (s[i] as int) < 256
  {
  }

  lemma NamesEqual(n: Network, n': Network)
    ensures Ascii(n.DisplayName()) == Ascii(n'.DisplayName()) <==> n.DisplayName() == n'.DisplayName()
  {
    hide Ascii, Network.DisplayName;
    if Ascii(n.DisplayName()) == Ascii(n'.DisplayName()) {
      NameIsAscii(n);
      NameIsAscii(n');
      AsciiInjective(n.DisplayName(), n'.DisplayName());
    }
  }

  /** Two full documents of accepted transfers are equal exactly when wallet, rational
      amount, displayed asset, asset id, recipient, network name, execution commitment, approvals,
      policy, fiat estimate and reason agree, an absent reason counting as `Not provided`. */
  lemma FullDocumentsAgree(q: Request, wallet: seq<byte>, q': Request, wallet': seq<byte>)
    requires Reviewable(q, wallet) && Reviewable(q', wallet')
    ensures FullText(ShownOf(q, wallet)) == FullText(ShownOf(q', wallet'))
            <==> SameTransfer(q, wallet, q', wallet') && q.body.fiat == q'.body.fiat && SameReason(q.reason, q'.reason)
  {
    hide FullText, Legible, SameTransfer, SameReason, Accepted, IdentityText, AmountBytes, Ascii;
    ShownLegible(q, wallet);
    ShownLegible(q', wallet');
    FullTextIff(ShownOf(q, wallet), ShownOf(q', wallet'));
    SameShown(q, wallet, q', wallet');
  }

  /** Likewise for compact documents, which show the proposal and its expiry instead of the estimate
      and the reason. */
  lemma CompactDocumentsAgree(q: Request, wallet: seq<byte>, q': Request, wallet': seq<byte>)
    requires Reviewable(q, wallet) && Reviewable(q', wallet')
    ensures CompactText(ShownOf(q, wallet)) == CompactText(ShownOf(q', wallet'))
            <==> SameTransfer(q, wallet, q', wallet') && q.common.proposalIndex == q'.common.proposalIndex
                 && q.common.expiresAt == q'.common.expiresAt
  {
    hide CompactText, Legible, SameTransfer, SameReason, Accepted, IdentityText, AmountBytes, Ascii;
    ShownLegible(q, wallet);
    ShownLegible(q', wallet');
    CompactTextIff(ShownOf(q, wallet), ShownOf(q', wallet'));
    SameShown(q, wallet, q', wallet');
  }
}

/** What parameters and templates mean, character by character and byte by byte. */
module TemplateLaws {
  import opened Base
  import opened Templates
  import Decimal
  import Io

  // ----- Numbers in texts -----

  /** A number as Rust reads it: digits, perhaps behind a plus sign. */
  predicate Unsigned(text: string, n: nat) {
    var digits := if text != "" && text[0] == '+' then text[1..] else text;
    digits != "" && Decimal.AllDigits(digits) && Decimal.Placed(digits) == n
  }

  lemma UnsignedIff(text: string, limit: nat, n: nat)
    ensures ParseUnsigned(text, limit) == Some(n) <==> Unsigned(text, n) && n < limit
  {
    hide Decimal.ValueOf, Decimal.Placed;
    var digits := if text != "" && text[0] == '+' then text[1..] else text;
    if Decimal.AllDigits(digits) {
      Decimal.ValueIsPlaced(digits);
    }
  }

  /** A signed number: digits, perhaps behind either sign. */
  predicate SignedNumber(text: string, n: int) {
    if text != "" && text[0] == '-' then Decimal.AllDigits(text[1..]) && text[1..] != "" && n + Decimal.Placed(text[1..]) == 0
    else n >= 0 && Unsigned(text, n)
  }

  lemma SignedIff(text: string, n: i64)
    ensures ParseI64(text) == Some(n) <==> SignedNumber(text, n)
  {
    hide Decimal.ValueOf, Decimal.Placed;
    var digits := if text != "" && (text[0] == '+' || text[0] == '-') then text[1..] else text;
    if Decimal.AllDigits(digits) {
      Decimal.ValueIsPlaced(digits);
    }
  }

  /** Which texts stand for which numbers and flags. */
  lemma ValueIff(codecs: TextCodecs, text: string, v: Value)
    ensures v.U64Value? ==> (ParseValue(codecs, U64, text) == Some(v) <==> Unsigned(text, v.u64))
    ensures v.U8Value? ==> (ParseValue(codecs, U8, text) == Some(v) <==> Unsigned(text, v.u8))
    ensures v.U16Value? ==> (ParseValue(codecs, U16, text) == Some(v) <==> Unsigned(text, v.u16))
    ensures v.U32Value? ==> (ParseValue(codecs, U32, text) == Some(v) <==> Unsigned(text, v.u32))
    ensures v.U128Value? ==> (ParseValue(codecs, U128, text) == Some(v) <==> Unsigned(text, v.u128))
    ensures v.I64Value? ==> (ParseValue(codecs, I64, text) == Some(v) <==> SignedNumber(text, v.i64))
    ensures v.BoolValue? ==> (ParseValue(codecs, Bool, text) == Some(v)
                              <==> if v.flag then text == "true" || text == "1" else text == "false" || text == "0")
    ensures v.StringValue? ==> (ParseValue(codecs, String, text) == Some(v) <==> v.utf8 == codecs.utf8(text) && |v.utf8| <= 255)
    ensures v.AddressValue? ==> (ParseValue(codecs, Address, text) == Some(v) <==> codecs.fromBase58(text) == Some(v.key))
    ensures v.Bytes20Value? && |v.raw| == 20 ==> (ParseValue(codecs, Bytes20, text) == Some(v) <==> codecs.fromHex(text) == Some(v.raw))
    ensures v.Bytes32Value? ==> (ParseValue(codecs, Bytes32Type, text) == Some(v) <==> codecs.fromHex(text) == Some(v.digest))
  {
    hide ParseUnsigned, ParseI64, Unsigned, SignedNumber;
    match v {
      case U64Value(n) => UnsignedIff(text, 0x1_0000_0000_0000_0000, n);
      case U8Value(n) => UnsignedIff(text, 256, n);
      case U16Value(n) => UnsignedIff(text, 0x1_0000, n);
      case U32Value(n) => UnsignedIff(text, 0x1_0000_0000, n);
      case U128Value(n) => UnsignedIff(text, 0x1_0000_0000_0000_0000_0000_0000_0000_0000, n);
      case I64Value(n) => SignedIff(text, n);
      case _ =>
    }
  }

  lemma DecIsUnsigned(n: nat)
    ensures Unsigned(Decimal.Dec(n), n)
  {
    hide Decimal.Placed, Decimal.ValueOf;
    Decimal.DecValue(n);
    Decimal.ValueIsPlaced(Decimal.Dec(n));
    assert Decimal.IsDigit(Decimal.Dec(n)[0]);
  }

  lemma SignedTextReads(n: i64)
    ensures SignedNumber(Io.SignedText(n), n)
  {
    hide Decimal.Placed, Decimal.Dec, Unsigned;
    if n >= 0 {
      Nothing(Decimal.Dec(n));
      assert Decimal.IsDigit(Decimal.Dec(n)[0]);
      DecIsUnsigned(n);
    } else {
      var digits := Decimal.Dec(Io.Magnitude(n));
      assert ("-" + digits)[1..] == digits;
      Decimal.DecValue(Io.Magnitude(n));
      Decimal.ValueIsPlaced(digits);
    }
  }

  /** Numbers and flags read the way they are shown. */
  lemma ShownReadsBack(codecs: TextCodecs, v: Value)
    requires v.U64Value? || v.U8Value? || v.U16Value? || v.U32Value? || v.U128Value? || v.I64Value? || v.BoolValue?
    ensures ShowValue(codecs, v).Some? && ParseValue(codecs, v.Type(), ShowValue(codecs, v).value) == Some(v)
  {
    hide ParseValue, Decimal.Dec, Io.SignedText, Unsigned, SignedNumber;
    ValueIff(codecs, ShowValue(codecs, v).value, v);
    match v {
      case U64Value(n) => DecIsUnsigned(n);
      case U8Value(n) => DecIsUnsigned(n);
      case U16Value(n) => DecIsUnsigned(n);
      case U32Value(n) => DecIsUnsigned(n);
      case U128Value(n) => DecIsUnsigned(n);
      case I64Value(n) => SignedTextReads(n);
      case BoolValue(_) =>
    }
  }

  // ----- Numbers in bytes -----

  /** The bytes are a number, the low byte first. */
  ghost predicate Spells(b: seq<byte>, n: nat, width: nat) {
    |b| == width && forall i :: 0 <= i < width ==> Pow(256, i) > 0 && b[i] == n / Pow(256, i) % 256
  }

  lemma LESpells(n: nat, width: nat)
    ensures Spells(LE(n, width), n, width)
  {
    hide LE, Pow;
    forall i | 0 <= i < width ensures Pow(256, i) > 0 && LE(n, width)[i] == n / Pow(256, i) % 256 {
      LEAt(n, width, i);
    }
  }

  /** The bytes of every value, and of a list of values. */
  lemma ValueBytes(v: Value)
    ensures var b := EncodeValue(v);
      match v
      case AddressValue(key) => b == key
      case U64Value(n) => Spells(b, n, 8)
      case I64Value(n) => Spells(b, if n < 0 then n + 0x1_0000_0000_0000_0000 else n, 8)
      case StringValue(s) => |b| == 1 + |s| && b[1..] == s && (|s| <= 255 ==> b[0] == |s|)
      case BoolValue(flag) => b == if flag then [1] else [0]
      case U8Value(n) => b == [n]
      case U16Value(n) => Spells(b, n, 2)
      case U32Value(n) => Spells(b, n, 4)
      case U128Value(n) => Spells(b, n, 16)
      case Bytes20Value(raw) => b == raw
      case Bytes32Value(digest) => b == digest
  {
    hide LE, Spells;
    match v {
      case U64Value(n) => LESpells(n, 8);
      case I64Value(n) => LESpells(Twos(n), 8);
      case U16Value(n) => LESpells(n, 2);
      case U32Value(n) => LESpells(n, 4);
      case U128Value(n) => LESpells(n, 16);
      case _ =>
    }
  }

  lemma {:induction false} ValuesInOrder(v: Value, vs: seq<Value>)
    ensures EncodeValues([v] + vs) == EncodeValue(v) + EncodeValues(vs)
  {
    hide EncodeValue;
    var all := [v] + vs;
    if vs == [] {
      assert all[..0] == [];
      Nothing(EncodeValue(v));
    } else {
      var n := |vs| - 1;
      assert all[..|all| - 1] == [v] + vs[..n];
      ValuesInOrder(v, vs[..n]);
      Assoc(EncodeValue(v), EncodeValues(vs[..n]), EncodeValue(vs[n]));
    }
  }

  // ----- Arguments -----

  /** The argument gives this name a text: it is split at its first equals sign. */
  predicate Gives(raw: string, name: string, text: string) { raw == name + "=" + text && '=' !in name }

  lemma FindSplits(raw: string, name: string, text: string)
    ensures Gives(raw, name, text) <==> Find(raw, '=') == Some(|name|) && |name| < |raw| && raw[..|name|] == name && raw[|name| + 1..] == text
  {
    hide Find;
    if Gives(raw, name, text) {
      assert raw[|name|] == '=';
      assert raw[..|name|] == name && raw[|name| + 1..] == text;
      assert forall i :: 0 <= i < |name| ==> raw[i] == name[i];
    }
    if Find(raw, '=') == Some(|name|) && |name| < |raw| && raw[..|name|] == name && raw[|name| + 1..] == text {
      assert raw == raw[..|name|] + [raw[|name|]] + raw[|name| + 1..];
    }
  }

  lemma {:induction false} TextsIff(raws: seq<string>)
    ensures ParamTexts(raws).Some? <==> forall i :: 0 <= i < |raws| ==> '=' in raws[i]
  {
    hide Find;
    if raws != [] {
      TextsIff(raws[..|raws| - 1]);
      assert raws == raws[..|raws| - 1] + [raws[|raws| - 1]];
    }
  }

  /** The last argument of a table, and what it adds. */
  lemma LastText(raws: seq<string>) returns (own: string, text: string)
    requires raws != [] && ParamTexts(raws).Some?
    ensures var front := ParamTexts(raws[..|raws| - 1]);
      front.Some? && ParamTexts(raws) == Some(front.value[own := text]) && Gives(raws[|raws| - 1], own, text)
  {
    hide Find, Gives;
    var raw := raws[|raws| - 1];
    var k := Find(raw, '=').value;
    own, text := raw[..k], raw[k + 1..];
    FindSplits(raw, own, text);
  }

  lemma {:induction false} TextsGiven(raws: seq<string>, name: string) returns (i: nat)
    requires ParamTexts(raws).Some? && name in ParamTexts(raws).value
    ensures LastGiving(raws, i, name, ParamTexts(raws).value[name])
  {
    hide Find, Gives, Names, ParamTexts;
    if raws == [] {
      NoTexts();
    } else {
      var n := |raws| - 1;
      var own, text := LastText(raws);
      if name == own {
        i := n;
      } else {
        i := TextsGiven(raws[..n], name);
        NotGiven(raws[n], own, text, name);
      }
    }
  }

  lemma NoTexts()
    ensures ParamTexts([]) == Some(map[])
  {
  }

  lemma {:induction false} TextsTake(raws: seq<string>, i: nat, name: string, text: string)
    requires ParamTexts(raws).Some? && LastGiving(raws, i, name, text)
    ensures name in ParamTexts(raws).value && ParamTexts(raws).value[name] == text
    decreases |raws|
  {
    hide Find, Gives, Names, ParamTexts;
    var n := |raws| - 1;
    var own, ownText := LastText(raws);
    if i < n {
      TextsTake(raws[..n], i, name, text);
      GivesNamed(raws[n], own, ownText);
    } else {
      SameGiven(raws[n], own, ownText, name, text);
    }
  }

  lemma GivesNamed(raw: string, name: string, text: string)
    requires Gives(raw, name, text)
    ensures Names(raw, name)
  {
    hide Find;
    FindSplits(raw, name, text);
  }

  lemma SameGiven(raw: string, name: string, text: string, name': string, text': string)
    requires Gives(raw, name, text) && Gives(raw, name', text')
    ensures name == name' && text == text'
  {
    hide Find;
    FindSplits(raw, name, text);
    FindSplits(raw, name', text');
  }

  /** Arguments make a table if each has an equals sign; a name's text is that of the last argument that
      gives it one. */
  lemma LastArgumentWins(raws: seq<string>)
    ensures ParamTexts(raws).Some? <==> forall i :: 0 <= i < |raws| ==> '=' in raws[i]
    ensures ParamTexts(raws).Some? ==>
              forall name, text :: GivenLast(raws, name, text) <==>
                name in ParamTexts(raws).value && ParamTexts(raws).value[name] == text
  {
    hide ParamTexts, LastGiving;
    TextsIff(raws);
    if ParamTexts(raws).Some? {
      var m := ParamTexts(raws).value;
      forall name, text
        ensures GivenLast(raws, name, text) <==> name in m && m[name] == text
      {
        if name in m && m[name] == text {
          var i := TextsGiven(raws, name);
        }
        if i: nat :| LastGiving(raws, i, name, text) {
          TextsTake(raws, i, name, text);
        }
      }
    }
  }

  /** The last argument with this name gives it this text. */
  ghost predicate GivenLast(raws: seq<string>, name: string, text: string) {
    exists i: nat :: LastGiving(raws, i, name, text)
  }

  predicate Names(raw: string, name: string) { Find(raw, '=') == Some(|name|) && |name| < |raw| && raw[..|name|] == name }

  /** Argument `i` is the last with this name. */
  predicate LastGiving(raws: seq<string>, i: int, name: string, text: string) {
    0 <= i < |raws| && Gives(raws[i], name, text) && forall j :: i < j < |raws| ==> !Names(raws[j], name)
  }

  lemma NotGiven(raw: string, own: string, ownText: string, name: string)
    requires Gives(raw, own, ownText) && name != own
    ensures !Names(raw, name)
  {
    hide Find;
    FindSplits(raw, own, ownText);
  }

  // ----- Templates -----

  /** The inside of a placeholder: an index, and a format behind the first colon. */
  predicate Inside(e: string, index: nat, format: Option<string>) {
    index < 0x1_0000_0000_0000_0000 &&
    match format
    case None => ':' !in e && Unsigned(e, index)
    case Some(f) => |f| < |e| && e == e[..|e| - |f| - 1] + ":" + f && ':' !in e[..|e| - |f| - 1] && Unsigned(e[..|e| - |f| - 1], index)
  }

  lemma FindAt(s: string, k: nat, c: char)
    requires k < |s| && s[k] == c && c !in s[..k]
    ensures Find(s, c) == Some(k)
  {
    hide Find;
    assert forall i :: 0 <= i < k ==> s[i] == s[..k][i];
  }

  lemma InsideIff(e: string, index: nat, format: Option<string>)
    ensures ParsePlaceholder(e) == Some(Placeholder(index, format)) <==> Inside(e, index, format)
  {
    hide Find, ParseUnsigned, Unsigned;
    var k := Find(e, ':');
    match format {
      case None =>
        UnsignedIff(e, 0x1_0000_0000_0000_0000, index);
      case Some(f) =>
        if |f| < |e| {
          var n := |e| - |f| - 1;
          UnsignedIff(e[..n], 0x1_0000_0000_0000_0000, index);
          if e == e[..n] + ":" + f && ':' !in e[..n] {
            assert e[n] == ':' && e[n + 1..] == f;
            FindAt(e, n, ':');
          }
          if k == Some(n) && e[n + 1..] == f {
            assert e == e[..n] + [e[n]] + e[n + 1..];
          }
        }
    }
  }

  /** A template as its segments: characters other than an opening brace stand for themselves, and a
      placeholder is written between braces. */
  ghost predicate Reads(t: string, ss: seq<Segment>)
    decreases |ss|
  {
    if ss == [] then t == "" else
    match ss[0]
    case Literal(c) => t != "" && t[0] == c && c != '{' && Reads(t[1..], ss[1..])
    case Placeholder(index, format) => exists e :: Braced(t, e) && Inside(e, index, format) && Reads(t[|e| + 2..], ss[1..])
  }

  predicate Braced(t: string, e: string) { |t| >= |e| + 2 && t[0] == '{' && t[1..|e| + 1] == e && t[|e| + 1] == '}' && '}' !in e }

  lemma BracedFinds(t: string, e: string)
    requires Braced(t, e)
    ensures Find(t[1..], '}') == Some(|e|) && t[1..][..|e|] == e
  {
    hide Find;
    assert t[1..][..|e|] == t[1..|e| + 1];
    FindAt(t[1..], |e|, '}');
  }

  lemma FindsBraced(t: string)
    requires t != "" && t[0] == '{' && Find(t[1..], '}').Some?
    ensures var k := Find(t[1..], '}').value; k + 2 <= |t| && Braced(t, t[1..][..k])
  {
    hide Find;
    var k := Find(t[1..], '}').value;
    assert t[1..][..k] == t[1..k + 1];
  }

  /** Scanning finds exactly the segments a template is written with. */
  lemma {:induction false} ScanIff(t: string, ss: seq<Segment>)
    ensures Scan(t) == Some(ss) <==> Reads(t, ss)
    decreases |t|
  {
    hide Find, ParsePlaceholder, Inside, Braced;
    if t == "" {
      ScanEmpty(ss);
    } else if t[0] != '{' {
      LiteralFirst(t, ss);
      if ss != [] {
        ScanIff(t[1..], ss[1..]);
        assert ss == [ss[0]] + ss[1..];
      }
      var rest := Scan(t[1..]);
      if rest.Some? {
        assert ([Literal(t[0])] + rest.value)[1..] == rest.value;
      }
    } else {
      ScanUnfold(t);
      if ss != [] && ss[0].Placeholder? {
        PlaceholderFirst(t, ss);
      } else if Find(t[1..], '}').Some? {
        PlaceholderParsed(t[1..][..Find(t[1..], '}').value]);
      }
    }
  }

  lemma ScanEmpty(ss: seq<Segment>)
    ensures Scan("") == Some(ss) <==> Reads("", ss)
  {
    hide Inside;
  }

  lemma LiteralFirst(t: string, ss: seq<Segment>)
    requires t != "" && t[0] != '{'
    ensures Reads(t, ss) <==> ss != [] && ss[0] == Literal(t[0]) && Reads(t[1..], ss[1..])
  {
    hide Inside;
  }

  lemma {:induction false} PlaceholderFirst(t: string, ss: seq<Segment>)
    requires t != "" && t[0] == '{' && ss != [] && ss[0].Placeholder?
    ensures Scan(t) == Some(ss) <==> Reads(t, ss)
    decreases |t|, 0
  {
    hide Find, ParsePlaceholder, Inside, Scan, Reads;
    if Reads(t, ss) {
      var e := ReadsFirst(t, ss);
      ScanIff(t[|e| + 2..], ss[1..]);
      ScannedFirst(t, ss, e);
    }
    if Scan(t) == Some(ss) {
      var e := ScansFirst(t, ss);
      ScanIff(t[|e| + 2..], ss[1..]);
      ReadFirst(t, ss, e);
    }
  }

  lemma ReadsFirst(t: string, ss: seq<Segment>) returns (e: string)
    requires ss != [] && ss[0].Placeholder? && Reads(t, ss)
    ensures Braced(t, e) && Inside(e, ss[0].index, ss[0].format) && Reads(t[|e| + 2..], ss[1..])
  {
    hide Inside;
    e :| Braced(t, e) && Inside(e, ss[0].index, ss[0].format) && Reads(t[|e| + 2..], ss[1..]);
  }

  lemma ReadFirst(t: string, ss: seq<Segment>, e: string)
    requires ss != [] && ss[0].Placeholder?
    requires Braced(t, e) && Inside(e, ss[0].index, ss[0].format) && Reads(t[|e| + 2..], ss[1..])
    ensures Reads(t, ss)
  {
    hide Inside;
  }

  lemma ScannedFirst(t: string, ss: seq<Segment>, e: string)
    requires ss != [] && ss[0].Placeholder? && Braced(t, e) && Inside(e, ss[0].index, ss[0].format)
    requires Scan(t[|e| + 2..]) == Some(ss[1..])
    ensures Scan(t) == Some(ss)
  {
    hide Find, ParsePlaceholder, Inside, Scan;
    ScanUnfold(t);
    BracedFinds(t, e);
    InsideIff(e, ss[0].index, ss[0].format);
    assert ss == [ss[0]] + ss[1..];
  }

  lemma ScansFirst(t: string, ss: seq<Segment>) returns (e: string)
    requires t != "" && t[0] == '{' && ss != [] && ss[0].Placeholder? && Scan(t) == Some(ss)
    ensures Braced(t, e) && Inside(e, ss[0].index, ss[0].format) && Scan(t[|e| + 2..]) == Some(ss[1..])
  {
    hide Find, ParsePlaceholder, Inside, Scan, Braced;
    ScanUnfold(t);
    FindsBraced(t);
    e := t[1..][..Find(t[1..], '}').value];
    var p, rest := ParsePlaceholder(e), Scan(t[|e| + 2..]);
    InsideIff(e, ss[0].index, ss[0].format);
    assert ([p.value] + rest.value)[1..] == rest.value;
  }

  // ----- What placeholders print -----

  /** A format is a power of ten, up to 19. */
  lemma SpecIff(format: string, d: nat)
    ensures DecimalSpec(format) == Some(d)
            <==> d <= 19 && |format| >= 3 && format[..3] == "10^" && Unsigned(format[3..], d)
  {
    hide ParseUnsigned, Unsigned;
    if |format| >= 3 {
      UnsignedIff(format[3..], 256, d);
      assert "10^" <= format <==> format[..3] == "10^";
    }
  }

  /** `{i}` prints value `i`. `{i:10^d}` prints it over `10^d`, without superfluous zeros, if it is a
      `u64` and `d` is at most 19, and nothing else. */
  lemma PlaceholderPrints(vs: seq<Value>, extra: seq<byte>, i: nat, show: Show, format: string, d: nat)
    requires i < |vs| && forall j :: 0 <= j < |vs| ==> vs[j].Encodable()
    ensures var types, data := TypesOf(vs), EncodeValues(vs) + extra;
      && RenderSegment(types, data, show, Placeholder(i, None)) == show(vs[i])
      && (!vs[i].U64Value? || DecimalSpec(format).None? ==> RenderSegment(types, data, show, Placeholder(i, Some(format))) == None)
      && (vs[i].U64Value? && DecimalSpec(format) == Some(d) ==>
            RenderSegment(types, data, show, Placeholder(i, Some(format))) == Some(Decimal.AmountText(vs[i].u64, d)))
  {
    hide EncodeValues, Decode, ParamOffset, DecimalSpec, Decimal.AmountText, Value.Encodable;
    OffsetLands(vs, extra, i);
  }

  /** The same by the characters: what is printed is, as a rational, the value over `10^d`. */
  lemma PrintsOver(vs: seq<Value>, extra: seq<byte>, i: nat, show: Show, format: string, d: nat) returns (w: string, f: string)
    requires i < |vs| && (forall j :: 0 <= j < |vs| ==> vs[j].Encodable()) && vs[i].U64Value?
    requires d <= 19 && |format| >= 3 && format[..3] == "10^" && Unsigned(format[3..], d)
    ensures RenderSegment(TypesOf(vs), EncodeValues(vs) + extra, show, Placeholder(i, Some(format)))
            == Some(if f == "" then w else w + "." + f)
    ensures Decimal.AllDigits(w + f) && Decimal.Placed(w + f) * Pow(10, d) == vs[i].u64 * Pow(10, |f|)
    ensures w != "" && (|w| > 1 ==> w[0] != '0') && (f != "" ==> f[|f| - 1] != '0')
  {
    hide EncodeValues, RenderSegment, DecimalSpec, Decimal.AmountText, Value.Encodable, Decimal.Placed, Pow, Unsigned;
    SpecIff(format, d);
    PlaceholderPrints(vs, extra, i, show, format, d);
    w, f := Decimal.AmountMeans(vs[i].u64, d);
  }

  /** A literal prints itself, and segments print one after another. */
  lemma {:induction false} SegmentsInOrder(types: seq<ParamType>, data: seq<byte>, show: Show, s: Segment, ss: seq<Segment>)
    ensures s.Literal? ==> RenderSegment(types, data, show, s) == Some([s.c])
    ensures RenderSegments(types, data, show, [s] + ss) ==
      match (RenderSegment(types, data, show, s), RenderSegments(types, data, show, ss))
      case (Some(text), Some(rest)) => Some(text + rest)
      case _ => None
  {
    if s.Literal? {
      RenderLiteral(types, data, show, s.c);
    }
    hide RenderSegment;
    var all := [s] + ss;
    if ss == [] {
      assert all[..0] == [];
      if RenderSegment(types, data, show, s).Some? {
        Nothing(RenderSegment(types, data, show, s).value);
      }
    } else {
      var n := |ss| - 1;
      assert all[..|all| - 1] == [s] + ss[..n];
      SegmentsInOrder(types, data, show, s, ss[..n]);
      var a, b, c := RenderSegment(types, data, show, s), RenderSegments(types, data, show, ss[..n]), RenderSegment(types, data, show, ss[n]);
      if a.Some? && b.Some? && c.Some? {
        Assoc(a.value, b.value, c.value);
      }
    }
  }

  /** A template renders as its segments do; what is not ASCII, or no template, does not render. */
  lemma RendersSegments(t: string, ss: seq<Segment>, types: seq<ParamType>, data: seq<byte>, show: Show)
    ensures IsAscii(t) && Reads(t, ss) ==> Render(t, types, data, show) == RenderSegments(types, data, show, ss)
    ensures Render(t, types, data, show).Some? ==> IsAscii(t) && exists read :: Reads(t, read)
  {
    hide Scan, Reads, RenderSegments;
    ScanIff(t, ss);
    if Scan(t).Some? {
      ScanIff(t, Scan(t).value);
    }
  }

  /** A template is valid if it is ASCII, is made of segments, and every placeholder refers to a parameter,
      formatted ones to a `u64`. */
  lemma ValidSegments(t: string, ss: seq<Segment>, types: seq<ParamType>)
    requires Reads(t, ss)
    ensures Valid(t, types) <==> IsAscii(t) && forall i :: 0 <= i < |ss| && ss[i].Placeholder? ==>
                ss[i].index < |types| && (ss[i].format.Some? ==> types[ss[i].index] == U64 && DecimalSpec(ss[i].format.value).Some?)
  {
    hide Scan, Reads, DecimalSpec;
    ScanIff(t, ss);
  }

  // ----- What is refused -----

  /** Arguments are accepted if every definition has a text and the text stands for a value. */
  lemma {:induction false} ParamsIff(types: seq<(string, ParamType)>, texts: map<string, string>, codecs: TextCodecs)
    ensures ParamValues(types, texts, codecs).Some?
            <==> forall i :: 0 <= i < |types| ==> types[i].0 in texts && ParseValue(codecs, types[i].1, texts[types[i].0]).Some?
  {
    hide ParseValue, Value.Type, Value.Encodable;
    if types != [] {
      var n := |types| - 1;
      ParamsIff(types[..n], texts, codecs);
      assert types == types[..n] + [types[n]];
    }
  }

  /** How many bytes a value takes at an offset: one length byte more for a string. */
  function Extent(t: ParamType, data: seq<byte>, offset: nat): nat {
    match t
    case Address | Bytes32Type => 32
    case U64 | I64 => 8
    case String => if offset < |data| then 1 + data[offset] as nat else 1
    case Bool | U8 => 1
    case U16 => 2
    case U32 => 4
    case U128 => 16
    case Bytes20 => 20
  }

  ghost predicate DecodesAs(t: ParamType, data: seq<byte>, offset: nat) {
    var n := Extent(t, data, offset);
    && (Decode(t, data, offset).Some? <==> offset + n <= |data|)
    && (Decode(t, data, offset).Some? ==>
          var v := Decode(t, data, offset).value;
          && v.Type() == t && v.Encodable()
          && (t == Bool ==> v == BoolValue(data[offset] != 0))
          && (t != Bool ==> EncodeValue(v) == data[offset..offset + n]))
  }

  lemma WordBytes(s: seq<byte>)
    ensures FromLE(s) < Pow(256, |s|) && LE(FromLE(s), |s|) == s
  {
    FromLERoundTrip(s);
    FromLEBound(s);
  }

  lemma DecodeNumber(t: ParamType, data: seq<byte>, offset: nat)
    requires t == U64 || t == I64 || t == U16 || t == U32 || t == U128
    ensures DecodesAs(t, data, offset)
  {
    hide LE, FromLE, Pow;
    var n := Extent(t, data, offset);
    if offset + n <= |data| {
      WordBytes(data[offset..offset + n]);
      WordSizes();
      if t == I64 {
        TwosBack(FromLE(data[offset..offset + n]));
      }
    }
  }

  lemma DecodeBytes(t: ParamType, data: seq<byte>, offset: nat)
    requires t == Address || t == Bytes20 || t == Bytes32Type
    ensures DecodesAs(t, data, offset)
  {
    hide LE, FromLE, Pow;
  }

  lemma DecodeByte(t: ParamType, data: seq<byte>, offset: nat)
    requires t == Bool || t == U8
    ensures DecodesAs(t, data, offset)
  {
    hide LE, FromLE, Pow;
    if offset < |data| {
      assert data[offset..offset + 1] == [data[offset]];
    }
  }

  lemma DecodeString(data: seq<byte>, offset: nat)
    ensures DecodesAs(String, data, offset)
  {
    hide LE, FromLE, Pow;
    var n := Extent(String, data, offset);
    if offset + n <= |data| {
      assert data[offset..offset + n] == [data[offset]] + data[offset + 1..offset + n];
    }
  }

  /** A value decodes exactly if its bytes are there, and it is the value those bytes encode; any byte but
      zero is a true flag. */
  lemma DecodeIff(t: ParamType, data: seq<byte>, offset: nat)
    ensures DecodesAs(t, data, offset)
  {
    hide DecodesAs;
    if t == U64 || t == I64 || t == U16 || t == U32 || t == U128 {
      DecodeNumber(t, data, offset);
    } else if t == String {
      DecodeString(data, offset);
    } else if t == Bool || t == U8 {
      DecodeByte(t, data, offset);
    } else {
      DecodeBytes(t, data, offset);
    }
  }

  lemma TwosBack(w: u64)
    ensures Twos(FromTwos(w)) == w
  {
  }
}

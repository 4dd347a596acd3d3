/** Intent templates: the parameter bytes, the offset walk that finds a value in them, and the two
    scanners that must read a template alike. */
module Templates {
  import opened Base
  import Decimal
  import Io

  // ----- Parameter values -----

  datatype ParamType = Address | U64 | I64 | String | Bool | U8 | U16 | U32 | U128 | Bytes20 | Bytes32Type

  datatype Value =
    | AddressValue(key: Bytes32)
    | U64Value(u64: u64)
    | I64Value(i64: i64)
    | StringValue(utf8: seq<byte>)
    | BoolValue(flag: bool)
    | U8Value(u8: byte)
    | U16Value(u16: u16)
    | U32Value(u32: u32)
    | U128Value(u128: u128)
    | Bytes20Value(raw: seq<byte>)
    | Bytes32Value(digest: Bytes32)
  {
    function Type(): ParamType {
      match this
      case AddressValue(_) => Address
      case U64Value(_) => U64
      case I64Value(_) => I64
      case StringValue(_) => String
      case BoolValue(_) => Bool
      case U8Value(_) => U8
      case U16Value(_) => U16
      case U32Value(_) => U32
      case U128Value(_) => U128
      case Bytes20Value(_) => Bytes20
      case Bytes32Value(_) => Bytes32Type
    }

    /** Strings say their length in one byte; `bytes20` has 20. */
    predicate Encodable() {
      (StringValue? ==> |utf8| <= 255) && (Bytes20Value? ==> |raw| == 20)
    }
  }

  function EncodeValue(v: Value): seq<byte> {
    match v
    case AddressValue(key) => key
    case U64Value(n) => LE(n, 8)
    case I64Value(n) => LE(Twos(n), 8)
    case StringValue(s) => [|s| % 256] + s
    case BoolValue(b) => [if b then 1 else 0]
    case U8Value(n) => [n]
    case U16Value(n) => LE(n, 2)
    case U32Value(n) => LE(n, 4)
    case U128Value(n) => LE(n, 16)
    case Bytes20Value(raw) => raw
    case Bytes32Value(digest) => digest
  }

  function EncodeValues(vs: seq<Value>): seq<byte> {
    if vs == [] then [] else EncodeValues(vs[..|vs| - 1]) + EncodeValue(vs[|vs| - 1])
  }

  function Find(s: string, c: char): (r: Option<nat>)
    ensures r.Some? ==> r.value < |s| && s[r.value] == c && c !in s[..r.value]
    ensures r.None? ==> c !in s
  {
    if s == "" then None
    else if s[0] == c then Some(0)
    else
      match Find(s[1..], c)
      case None => None
      case Some(k) =>
        assert s[..k + 1] == [s[0]] + s[1..][..k];
        Some(k + 1)
  }

  /** Rust's integer parsing: an optional `+`, at least one digit, no overflow. */
  function ParseUnsigned(s: string, limit: nat): Option<nat> {
    var digits := if s != "" && s[0] == '+' then s[1..] else s;
    if digits != "" && Decimal.AllDigits(digits) && Decimal.ValueOf(digits) < limit then Some(Decimal.ValueOf(digits))
    else None
  }

  /** A signed integer: an optional sign, at least one digit, within 64 bits. */
  function ParseI64(s: string): Option<i64> {
    var digits := if s != "" && (s[0] == '+' || s[0] == '-') then s[1..] else s;
    if digits == "" || !Decimal.AllDigits(digits) then None else
    var magnitude: int := Decimal.ValueOf(digits);
    var n := if s[0] == '-' then -magnitude else magnitude;
    if -0x8000_0000_0000_0000 <= n < 0x8000_0000_0000_0000 then Some(n) else None
  }

  /** Foreign text encodings: base58, hexadecimal with an optional prefix, and UTF-8. */
  datatype TextCodecs = TextCodecs(
    fromBase58: string -> Option<seq<byte>>,
    fromHex: string -> Option<seq<byte>>,
    utf8: string -> seq<byte>,
    toBase58: seq<byte> -> string,
    fromUtf8: seq<byte> -> Option<string>)

  /** The value that a parameter's text stands for. */
  function ParseValue(codecs: TextCodecs, t: ParamType, text: string): (r: Option<Value>)
    ensures r.Some? ==> r.value.Type() == t && r.value.Encodable()
  {
    match t
    case Address =>
      var b := codecs.fromBase58(text);
      if b.Some? && |b.value| == 32 then Some(AddressValue(b.value)) else None
    case U64 =>
      var n := ParseUnsigned(text, 0x1_0000_0000_0000_0000);
      if n.Some? then Some(U64Value(n.value)) else None
    case I64 =>
      var n := ParseI64(text);
      if n.Some? then Some(I64Value(n.value)) else None
    case String =>
      var b := codecs.utf8(text);
      if |b| <= 255 then Some(StringValue(b)) else None
    case Bool =>
      if text == "true" || text == "1" then Some(BoolValue(true))
      else if text == "false" || text == "0" then Some(BoolValue(false))
      else None
    case U8 =>
      var n := ParseUnsigned(text, 256);
      if n.Some? then Some(U8Value(n.value)) else None
    case U16 =>
      var n := ParseUnsigned(text, 0x1_0000);
      if n.Some? then Some(U16Value(n.value)) else None
    case U32 =>
      var n := ParseUnsigned(text, 0x1_0000_0000);
      if n.Some? then Some(U32Value(n.value)) else None
    case U128 =>
      var n := ParseUnsigned(text, 0x1_0000_0000_0000_0000_0000_0000_0000_0000);
      if n.Some? then Some(U128Value(n.value)) else None
    case Bytes20 =>
      var b := codecs.fromHex(text);
      if b.Some? && |b.value| == 20 then Some(Bytes20Value(b.value)) else None
    case Bytes32Type =>
      var b := codecs.fromHex(text);
      if b.Some? && |b.value| == 32 then Some(Bytes32Value(b.value)) else None
  }

  /** How a value reads in a rendered template; only a string that is not UTF-8 does not. */
  function ShowValue(codecs: TextCodecs, v: Value): (r: Option<string>)
    ensures r.None? <==> v.StringValue? && codecs.fromUtf8(v.utf8).None?
  {
    match v
    case AddressValue(key) => Some(codecs.toBase58(key))
    case U64Value(n) => Some(Decimal.Dec(n))
    case I64Value(n) => Some(Io.SignedText(n))
    case StringValue(s) => codecs.fromUtf8(s)
    case BoolValue(b) => Some(if b then "true" else "false")
    case U8Value(n) => Some(Decimal.Dec(n))
    case U16Value(n) => Some(Decimal.Dec(n))
    case U32Value(n) => Some(Decimal.Dec(n))
    case U128Value(n) => Some(Decimal.Dec(n))
    case Bytes20Value(raw) => Some("0x" + Io.Chars(Io.HexText(raw)))
    case Bytes32Value(digest) => Some("0x" + Io.Chars(Io.HexText(digest)))
  }

  /** The `key=value` arguments; a later one overrides an earlier one. */
  function ParamTexts(raws: seq<string>): Option<map<string, string>> {
    if raws == [] then Some(map[]) else
    var raw := raws[|raws| - 1];
    match ParamTexts(raws[..|raws| - 1])
    case None => None
    case Some(front) =>
      match Find(raw, '=')
      case None => None
      case Some(k) => Some(front[raw[..k] := raw[k + 1..]])
  }

  function ParamValues(types: seq<(string, ParamType)>, texts: map<string, string>, codecs: TextCodecs): Option<seq<Value>> {
    if types == [] then Some([]) else
    match ParamValues(types[..|types| - 1], texts, codecs)
    case None => None
    case Some(front) =>
      match ParamValue(types[|types| - 1].0, types[|types| - 1].1, texts, codecs)
      case None => None
      case Some(v) => Some(front + [v])
  }

  /** The value one definition adds, if its text is there and parses. */
  function ParamValue(name: string, t: ParamType, texts: map<string, string>, codecs: TextCodecs): Option<Value> {
    if name in texts then ParseValue(codecs, t, texts[name]) else None
  }

  /** `encode_params`: the arguments are split into a table, then each definition appends its value's
      bytes. */
  method EncodeParams(types: seq<(string, ParamType)>, raws: seq<string>, codecs: TextCodecs)
    returns (r: Option<seq<byte>>)
    ensures match ParamTexts(raws)
            case None => r == None
            case Some(texts) =>
              match ParamValues(types, texts, codecs)
              case None => r == None
              case Some(vs) => r == Some(EncodeValues(vs))
  {
    hide EncodeValue, ParamValues, ParseValue, EncodeValues, ParamTexts, Find;
    var table := SplitArguments(raws);
    if table.None? {
      return None;
    }
    var texts := table.value;
    var data: seq<byte> := [];
    ghost var vs: seq<Value> := [];
    NoParams(types, texts, codecs);
    for i := 0 to |types|
      invariant ParamValues(types[..i], texts, codecs) == Some(vs) && data == EncodeValues(vs)
    {
      PrefixNone(types, i + 1, texts, codecs);
      NextParam(types, i, texts, codecs);
      var (name, t) := types[i];
      if name !in texts {
        return None;
      }
      var v := ParseValue(codecs, t, texts[name]);
      if v.None? {
        return None;
      }
      NextBytes(vs, v.value);
      data := data + EncodeValue(v.value);
      vs := vs + [v.value];
    }
    assert types[..|types|] == types;
    return Some(data);
  }

  /** The loop that fills the table. */
  method SplitArguments(raws: seq<string>) returns (r: Option<map<string, string>>)
    ensures r == ParamTexts(raws)
  {
    hide Find;
    var texts: map<string, string> := map[];
    for i := 0 to |raws|
      invariant ParamTexts(raws[..i]) == Some(texts)
    {
      assert raws[..i + 1][..i] == raws[..i];
      TextsNone(raws, i + 1);
      var k := Find(raws[i], '=');
      if k.None? {
        return None;
      }
      texts := texts[raws[i][..k.value] := raws[i][k.value + 1..]];
    }
    assert raws[..|raws|] == raws;
    return Some(texts);
  }

  lemma {:induction false} TextsNone(raws: seq<string>, n: nat)
    requires n <= |raws|
    ensures ParamTexts(raws[..n]).None? ==> ParamTexts(raws).None?
    decreases |raws|
  {
    hide Find;
    if n < |raws| {
      TextsNone(raws[..|raws| - 1], n);
      assert raws[..|raws| - 1][..n] == raws[..n];
    } else {
      assert raws[..n] == raws;
    }
  }

  lemma NoParams(types: seq<(string, ParamType)>, texts: map<string, string>, codecs: TextCodecs)
    ensures ParamValues(types[..0], texts, codecs) == Some([]) && EncodeValues([]) == []
  {
  }

  lemma NextParam(types: seq<(string, ParamType)>, i: nat, texts: map<string, string>, codecs: TextCodecs)
    requires i < |types|
    ensures ParamValues(types[..i + 1], texts, codecs)
         == match ParamValues(types[..i], texts, codecs)
            case None => None
            case Some(front) =>
              match ParamValue(types[i].0, types[i].1, texts, codecs)
              case None => None
              case Some(v) => Some(front + [v])
  {
    hide Value.Type, Value.Encodable, ParamValue;
    assert types[..i + 1][..i] == types[..i];
  }

  lemma NextBytes(vs: seq<Value>, v: Value)
    ensures EncodeValues(vs + [v]) == EncodeValues(vs) + EncodeValue(v)
  {
    hide EncodeValue;
    assert (vs + [v])[..|vs|] == vs;
  }

  lemma {:induction false} PrefixNone(types: seq<(string, ParamType)>, n: nat, texts: map<string, string>, codecs: TextCodecs)
    requires n <= |types|
    ensures ParamValues(types[..n], texts, codecs).None? ==> ParamValues(types, texts, codecs).None?
    decreases |types|
  {
    if n < |types| {
      PrefixNone(types[..|types| - 1], n, texts, codecs);
      assert types[..|types| - 1][..n] == types[..n];
    } else {
      assert types[..n] == types;
    }
  }

  // ----- Finding a value -----

  /** `param_size`. Only a string has to look at the data. */
  function ParamSize(t: ParamType, data: seq<byte>, offset: nat): Option<nat> {
    match t
    case Address | Bytes32Type => Some(32)
    case U64 | I64 => Some(8)
    case Bytes20 => Some(20)
    case String => if offset < |data| then Some(1 + data[offset] as nat) else None
    case Bool | U8 => Some(1)
    case U16 => Some(2)
    case U32 => Some(4)
    case U128 => Some(16)
  }

  function ParamOffset(types: seq<ParamType>, data: seq<byte>, target: nat): Option<nat>
    requires target <= |types|
  {
    if target == 0 then Some(0) else
    match ParamOffset(types, data, target - 1)
    case None => None
    case Some(offset) =>
      match ParamSize(types[target - 1], data, offset)
      case None => None
      case Some(size) => Some(offset + size)
  }

  /** The loop of `param_offset`. */
  method FindOffset(types: seq<ParamType>, data: seq<byte>, target: nat) returns (r: Option<nat>)
    requires target <= |types|
    ensures r == ParamOffset(types, data, target)
  {
    var offset := 0;
    for i := 0 to target
      invariant ParamOffset(types, data, i) == Some(offset)
    {
      var size := ParamSize(types[i], data, offset);
      if size.None? {
        OffsetNone(types, data, i + 1, target);
        return None;
      }
      offset := offset + size.value;
    }
    return Some(offset);
  }

  lemma {:induction false} OffsetNone(types: seq<ParamType>, data: seq<byte>, i: nat, target: nat)
    requires i <= target <= |types| && ParamOffset(types, data, i).None?
    ensures ParamOffset(types, data, target).None?
    decreases target
  {
    if i < target {
      OffsetNone(types, data, i, target - 1);
    }
  }

  /** `param_bytes`. */
  function Slice(data: seq<byte>, offset: nat, n: nat): Option<seq<byte>> {
    if offset + n <= |data| then Some(data[offset..offset + n]) else None
  }

  function WordAt(data: seq<byte>, offset: nat, n: nat): (r: Option<nat>)
    ensures r.Some? ==> r.value < Pow(256, n)
  {
    match Slice(data, offset, n)
    case None => None
    case Some(s) => FromLEBound(s); Some(FromLE(s))
  }

  /** What `render_param` reads at an offset. */
  function Decode(t: ParamType, data: seq<byte>, offset: nat): Option<Value> {
    WordSizes();
    match t
    case Address => (match Slice(data, offset, 32) case None => None case Some(s) => Some(AddressValue(s)))
    case U64 => (match WordAt(data, offset, 8) case None => None case Some(n) => Some(U64Value(n)))
    case I64 => (match WordAt(data, offset, 8) case None => None case Some(n) => Some(I64Value(FromTwos(n))))
    case String =>
      if offset >= |data| then None else
      (match Slice(data, offset + 1, data[offset]) case None => None case Some(s) => Some(StringValue(s)))
    case Bool => if offset < |data| then Some(BoolValue(data[offset] != 0)) else None
    case U8 => if offset < |data| then Some(U8Value(data[offset])) else None
    case U16 => (match WordAt(data, offset, 2) case None => None case Some(n) => Some(U16Value(n)))
    case U32 => (match WordAt(data, offset, 4) case None => None case Some(n) => Some(U32Value(n)))
    case U128 => (match WordAt(data, offset, 16) case None => None case Some(n) => Some(U128Value(n)))
    case Bytes20 => (match Slice(data, offset, 20) case None => None case Some(s) => Some(Bytes20Value(s)))
    case Bytes32Type => (match Slice(data, offset, 32) case None => None case Some(s) => Some(Bytes32Value(s)))
  }

  function TypesOf(vs: seq<Value>): (r: seq<ParamType>)
    ensures |r| == |vs| && forall i :: 0 <= i < |vs| ==> r[i] == vs[i].Type()
  {
    seq(|vs|, i requires 0 <= i < |vs| => vs[i].Type())
  }

  lemma ValueAt(v: Value, data: seq<byte>, offset: nat)
    requires v.Encodable() && offset + |EncodeValue(v)| <= |data|
    requires data[offset..offset + |EncodeValue(v)|] == EncodeValue(v)
    ensures ParamSize(v.Type(), data, offset) == Some(|EncodeValue(v)|)
    ensures Decode(v.Type(), data, offset) == Some(v)
  {
    hide LE, FromLE;
    WordSizes();
    var s := data[offset..offset + |EncodeValue(v)|];
    match v {
      case U64Value(n) => LERoundTrip(n, 8);
      case I64Value(n) => LERoundTrip(Twos(n), 8);
      case StringValue(u) =>
        assert s[0] == data[offset] == |u|;
        assert data[offset + 1..offset + 1 + |u|] == s[1..] == u;
      case BoolValue(_) => assert s[0] == data[offset];
      case U8Value(_) => assert s[0] == data[offset];
      case U16Value(n) => LERoundTrip(n, 2);
      case U32Value(n) => LERoundTrip(n, 4);
      case U128Value(n) => LERoundTrip(n, 16);
      case _ =>
    }
  }

  lemma {:induction false} PrefixEncoded(vs: seq<Value>, i: nat)
    requires i <= |vs|
    ensures EncodeValues(vs[..i]) <= EncodeValues(vs)
    decreases |vs|
  {
    hide EncodeValue;
    if i < |vs| {
      PrefixEncoded(vs[..|vs| - 1], i);
      assert vs[..|vs| - 1][..i] == vs[..i];
    } else {
      assert vs[..i] == vs;
    }
  }

  /** For every list of typed values, with whatever bytes behind it, the offset walk lands exactly at
      value `i`, and decoding there returns that value. */
  lemma {:induction false} OffsetLands(vs: seq<Value>, extra: seq<byte>, i: nat)
    requires i <= |vs| && forall j :: 0 <= j < |vs| ==> vs[j].Encodable()
    ensures ParamOffset(TypesOf(vs), EncodeValues(vs) + extra, i) == Some(|EncodeValues(vs[..i])|)
    ensures i < |vs| ==> Decode(vs[i].Type(), EncodeValues(vs) + extra, |EncodeValues(vs[..i])|) == Some(vs[i])
    decreases i
  {
    hide EncodeValue, Decode, ParamSize, Value.Encodable, Value.Type, EncodeValues;
    if i < |vs| {
      PlaceOf(vs, extra, i);
    }
    if i > 0 {
      OffsetLands(vs, extra, i - 1);
      PlaceOf(vs, extra, i - 1);
    } else {
      assert vs[..0] == [];
      NoBytes();
    }
  }

  function TypeList(types: seq<(string, ParamType)>): (r: seq<ParamType>)
    ensures |r| == |types| && forall i :: 0 <= i < |types| ==> r[i] == types[i].1
  {
    seq(|types|, i requires 0 <= i < |types| => types[i].1)
  }

  lemma {:induction false} ParamsTyped(types: seq<(string, ParamType)>, texts: map<string, string>, codecs: TextCodecs, vs: seq<Value>)
    requires ParamValues(types, texts, codecs) == Some(vs)
    ensures |vs| == |types|
    ensures forall i :: 0 <= i < |vs| ==>
      && types[i].0 in texts && ParseValue(codecs, types[i].1, texts[types[i].0]) == Some(vs[i])
      && vs[i].Type() == types[i].1 && vs[i].Encodable()
  {
    hide ParseValue, Value.Type, Value.Encodable;
    if types != [] {
      var n := |types| - 1;
      var front := ParamValues(types[..n], texts, codecs).value;
      ParamsTyped(types[..n], texts, codecs, front);
      assert forall i :: 0 <= i < n ==> types[i] == types[..n][i] && vs[i] == front[i];
    }
  }

  /** From texts to bytes and back: for accepted texts, whatever follows the bytes, the walk finds
      parameter `i`, decoding there gives the value its text stands for, and it renders as that value. */
  lemma ParamsDecode(types: seq<(string, ParamType)>, texts: map<string, string>, codecs: TextCodecs, vs: seq<Value>,
                     extra: seq<byte>, i: nat)
    requires ParamValues(types, texts, codecs) == Some(vs) && i < |types|
    ensures i < |vs| && types[i].0 in texts && ParseValue(codecs, types[i].1, texts[types[i].0]) == Some(vs[i])
    ensures var data, offset := EncodeValues(vs) + extra, ParamOffset(TypeList(types), EncodeValues(vs) + extra, i);
      && offset.Some? && Decode(types[i].1, data, offset.value) == Some(vs[i])
      && RenderSegment(TypeList(types), data, Shows(codecs), Placeholder(i, None)) == ShowValue(codecs, vs[i])
  {
    hide ParseValue, Value.Type, Value.Encodable, EncodeValues, Decode, ShowValue, ParamOffset;
    ParamsTyped(types, texts, codecs, vs);
    OffsetLands(vs, extra, i);
    assert TypeList(types) == TypesOf(vs);
  }

  lemma NoBytes()
    ensures EncodeValues([]) == []
  {
  }

  lemma PlaceOf(vs: seq<Value>, extra: seq<byte>, i: nat)
    requires i < |vs| && vs[i].Encodable()
    ensures var at := |EncodeValues(vs[..i])|;
      && |EncodeValues(vs[..i + 1])| == at + |EncodeValue(vs[i])|
      && ParamSize(vs[i].Type(), EncodeValues(vs) + extra, at) == Some(|EncodeValue(vs[i])|)
      && Decode(vs[i].Type(), EncodeValues(vs) + extra, at) == Some(vs[i])
  {
    hide EncodeValue, Decode, ParamSize, Value.Encodable, Value.Type;
    var data := EncodeValues(vs) + extra;
    var front, own := EncodeValues(vs[..i]), EncodeValue(vs[i]);
    assert vs[..i + 1][..i] == vs[..i];
    PrefixEncoded(vs, i + 1);
    assert EncodeValues(vs[..i + 1]) == front + own;
    assert data[|front|..|front| + |own|] == (front + own)[|front|..] == own;
    ValueAt(vs[i], data, |front|);
  }

  // ----- Templates -----

  datatype Segment = Literal(c: char) | Placeholder(index: nat, format: Option<string>)

  predicate IsAscii(s: string) { forall i :: 0 <= i < |s| ==> (s[i] as int) < 0x80 }

  /** The inside of a placeholder: an index, and a format after the first colon. */
  function ParsePlaceholder(expression: string): Option<Segment> {
    var (indexText, format) :=
      match Find(expression, ':')
      case None => (expression, None)
      case Some(k) => (expression[..k], Some(expression[k + 1..]));
    match ParseUnsigned(indexText, 0x1_0000_0000_0000_0000)
    case None => None
    case Some(index) => Some(Placeholder(index, format))
  }

  /** What both scanners see: literal characters and placeholders, or nothing for a template that has
      an unmatched brace or a bad index. */
  function Scan(t: string): Option<seq<Segment>>
    decreases |t|
  {
    if t == "" then Some([])
    else if t[0] != '{' then
      (match Scan(t[1..]) case None => None case Some(rest) => Some([Literal(t[0])] + rest))
    else
      match Find(t[1..], '}')
      case None => None
      case Some(k) =>
        match ParsePlaceholder(t[1..][..k])
        case None => None
        case Some(p) => (match Scan(t[k + 2..]) case None => None case Some(rest) => Some([p] + rest))
  }

  /** `10^d` with at most 19 decimals. */
  function DecimalSpec(format: string): Option<nat> {
    if "10^" <= format then
      (match ParseUnsigned(format[3..], 256)
       case None => None
       case Some(d) => if d <= 19 then Some(d) else None)
    else None
  }

  predicate SegmentValid(types: seq<ParamType>, s: Segment) {
    s.Literal? || (s.index < |types| && (s.format.Some? ==> DecimalSpec(s.format.value).Some? && types[s.index].U64?))
  }

  predicate AllValid(types: seq<ParamType>, ss: seq<Segment>) {
    forall i :: 0 <= i < |ss| ==> SegmentValid(types, ss[i])
  }

  /** A template that validation accepts. */
  predicate Valid(t: string, types: seq<ParamType>) {
    IsAscii(t) && Scan(t).Some? && AllValid(types, Scan(t).value)
  }

  /** How a decoded value reads; a string that is not UTF-8 does not. */
  type Show = Value -> Option<string>

  function Shows(codecs: TextCodecs): Show {
    v => ShowValue(codecs, v)
  }

  function RenderSegment(types: seq<ParamType>, data: seq<byte>, show: Show, s: Segment): Option<string> {
    match s
    case Literal(c) => Some([c])
    case Placeholder(index, format) =>
      if index >= |types| || (format.Some? && !types[index].U64?) then None else
      match ParamOffset(types, data, index)
      case None => None
      case Some(offset) =>
        match Decode(types[index], data, offset)
        case None => None
        case Some(v) =>
          if format.None? then show(v) else
          match DecimalSpec(format.value)
          case None => None
          case Some(d) => if v.U64Value? then Some(Decimal.AmountText(v.u64, d)) else None
  }

  function RenderSegments(types: seq<ParamType>, data: seq<byte>, show: Show, ss: seq<Segment>): Option<string> {
    if ss == [] then Some("") else
    match RenderSegments(types, data, show, ss[..|ss| - 1])
    case None => None
    case Some(front) =>
      match RenderSegment(types, data, show, ss[|ss| - 1])
      case None => None
      case Some(text) => Some(front + text)
  }

  function Render(t: string, types: seq<ParamType>, data: seq<byte>, show: Show): Option<string> {
    if !IsAscii(t) then None else
    match Scan(t)
    case None => None
    case Some(ss) => RenderSegments(types, data, show, ss)
  }

  /** The value a placeholder needs is there and readable. */
  ghost predicate Readable(types: seq<ParamType>, data: seq<byte>, show: Show, s: Segment) {
    s.Placeholder? && s.index < |types| ==>
      var offset := ParamOffset(types, data, s.index);
      && offset.Some?
      && var v := Decode(types[s.index], data, offset.value);
      && v.Some? && (s.format.None? ==> show(v.value).Some?)
  }

  /** Where the scanners stand after some segments: the rest of the template is still to be scanned. */
  ghost predicate ScannedTo(t: string, cursor: nat, ss: seq<Segment>)
    requires cursor <= |t|
  {
    Scan(t) == match Scan(t[cursor..]) case None => None case Some(rest) => Some(ss + rest)
  }

  lemma ScanLiteral(t: string, cursor: nat, ss: seq<Segment>)
    requires cursor < |t| && ScannedTo(t, cursor, ss) && t[cursor] != '{'
    ensures ScannedTo(t, cursor + 1, ss + [Literal(t[cursor])])
  {
    assert t[cursor..][1..] == t[cursor + 1..];
    var rest := Scan(t[cursor + 1..]);
    if rest.Some? {
      assert ss + ([Literal(t[cursor])] + rest.value) == ss + [Literal(t[cursor])] + rest.value;
    }
  }

  lemma ScanUnfold(t: string)
    requires t != "" && t[0] == '{'
    ensures var k := Find(t[1..], '}');
      && (k.None? ==> Scan(t).None?)
      && (k.Some? ==>
            var p, rest := ParsePlaceholder(t[1..][..k.value]), Scan(t[k.value + 2..]);
            && (p.None? || rest.None? ==> Scan(t).None?)
            && (p.Some? && rest.Some? ==> Scan(t) == Some([p.value] + rest.value)))
  {
    hide Find, ParsePlaceholder;
  }

  lemma ScanBrace(t: string, cursor: nat, ss: seq<Segment>)
    requires cursor < |t| && ScannedTo(t, cursor, ss) && t[cursor] == '{'
    ensures var k := Find(t[cursor + 1..], '}');
      && (k.None? ==> Scan(t).None?)
      && (k.Some? ==>
            var p := ParsePlaceholder(t[cursor + 1..cursor + 1 + k.value]);
            && (p.None? ==> Scan(t).None?)
            && (p.Some? ==> ScannedTo(t, cursor + 2 + k.value, ss + [p.value])))
  {
    hide Scan, Find, ParsePlaceholder, ScannedTo;
    ScanUnfold(t[cursor..]);
    Suffix(t, cursor, 1);
    var k := Find(t[cursor + 1..], '}');
    if k.None? {
      ScanStops(t, cursor, ss);
    } else {
      Inner(t, cursor + 1, k.value);
      Suffix(t, cursor, k.value + 2);
      var p := ParsePlaceholder(t[cursor + 1..cursor + 1 + k.value]);
      if p.None? {
        ScanStops(t, cursor, ss);
      } else {
        ScanAdvances(t, cursor, cursor + 2 + k.value, ss, p.value);
      }
    }
  }

  lemma ScanStops(t: string, cursor: nat, ss: seq<Segment>)
    requires cursor <= |t| && ScannedTo(t, cursor, ss) && Scan(t[cursor..]).None?
    ensures Scan(t).None?
  {
    hide Scan;
  }

  lemma ScanAdvances(t: string, cursor: nat, next: nat, ss: seq<Segment>, s: Segment)
    requires cursor <= |t| && next <= |t| && ScannedTo(t, cursor, ss)
    requires Scan(t[cursor..]) == match Scan(t[next..]) case None => None case Some(rest) => Some([s] + rest)
    ensures ScannedTo(t, next, ss + [s])
  {
    hide Scan;
    var rest := Scan(t[next..]);
    if rest.Some? {
      Assoc(ss, [s], rest.value);
    }
  }

  lemma Suffix(t: string, i: nat, j: nat)
    requires i + j <= |t|
    ensures t[i..][j..] == t[i + j..]
  {
  }

  lemma Inner(t: string, i: nat, n: nat)
    requires i + n <= |t|
    ensures t[i..][..n] == t[i..i + n]
  {
  }

  /** `validate_template`. */
  method ValidateTemplate(t: string, types: seq<ParamType>) returns (ok: bool)
    ensures ok == Valid(t, types)
  {
    hide Scan, ParsePlaceholder, Find, SegmentValid;
    if !IsAscii(t) {
      return false;
    }
    var cursor := 0;
    ghost var ss: seq<Segment> := [];
    ScanStart(t);
    while cursor < |t|
      invariant cursor <= |t| && ScannedTo(t, cursor, ss) && AllValid(types, ss)
    {
      if t[cursor] != '{' {
        ScanLiteral(t, cursor, ss);
        LiteralValid(types, t[cursor]);
        ss := ss + [Literal(t[cursor])];
        cursor := cursor + 1;
        continue;
      }
      ScanBrace(t, cursor, ss);
      var k := Find(t[cursor + 1..], '}');
      if k.None? {
        return false;
      }
      var p := ParsePlaceholder(t[cursor + 1..cursor + 1 + k.value]);
      if p.None? {
        return false;
      }
      if !SegmentValid(types, p.value) {
        InvalidSegment(t, cursor + 2 + k.value, ss, p.value, types);
        return false;
      }
      ss := ss + [p.value];
      cursor := cursor + 2 + k.value;
    }
    ScanEnd(t, cursor, ss);
    return true;
  }

  lemma LiteralValid(types: seq<ParamType>, c: char)
    ensures SegmentValid(types, Literal(c))
  {
  }

  lemma ScanStart(t: string)
    ensures ScannedTo(t, 0, [])
  {
    assert t[0..] == t;
    if Scan(t).Some? {
      assert [] + Scan(t).value == Scan(t).value;
    }
  }

  lemma ScanEnd(t: string, cursor: nat, ss: seq<Segment>)
    requires cursor == |t| && ScannedTo(t, cursor, ss)
    ensures Scan(t) == Some(ss)
  {
    assert t[cursor..] == "";
    assert ss + [] == ss;
  }

  lemma InvalidSegment(t: string, cursor: nat, ss: seq<Segment>, s: Segment, types: seq<ParamType>)
    requires cursor <= |t| && ScannedTo(t, cursor, ss + [s]) && !SegmentValid(types, s)
    ensures !Valid(t, types)
  {
    hide Scan, SegmentValid;
    if Scan(t).Some? {
      assert Scan(t).value[|ss|] == s;
    }
  }

  /** `render_param`: walk to the value, decode it there, and print it as the placeholder asks. */
  method RenderParam(types: seq<ParamType>, data: seq<byte>, codecs: TextCodecs, s: Segment) returns (r: Option<string>)
    requires s.Placeholder?
    ensures r == RenderSegment(types, data, Shows(codecs), s)
  {
    hide ParamOffset, Decode, DecimalSpec, ShowValue, Decimal.AmountText;
    if s.index >= |types| || (s.format.Some? && !types[s.index].U64?) {
      return None;
    }
    var offset := FindOffset(types, data, s.index);
    if offset.None? {
      return None;
    }
    var v := Decode(types[s.index], data, offset.value);
    if v.None? {
      return None;
    }
    if s.format.None? {
      return ShowValue(codecs, v.value);
    }
    var d := DecimalSpec(s.format.value);
    if d.None? {
      return None;
    }
    SpecBound(s.format.value);
    DecodedType(types[s.index], data, offset.value);
    var text := FormatDecimalU64(v.value.u64, d.value);
    return Some(text);
  }

  lemma SpecBound(format: string)
    ensures DecimalSpec(format).Some? ==> DecimalSpec(format).value <= 19
  {
  }

  /** `render_template`. */
  method RenderTemplate(t: string, types: seq<ParamType>, data: seq<byte>, codecs: TextCodecs) returns (r: Option<string>)
    ensures r == Render(t, types, data, Shows(codecs))
  {
    hide Scan, ParsePlaceholder, Find, RenderSegment, ShowValue, Shows;
    var show := Shows(codecs);
    if !IsAscii(t) {
      return None;
    }
    var result := "";
    var cursor := 0;
    ghost var ss: seq<Segment> := [];
    ScanStart(t);
    while cursor < |t|
      invariant cursor <= |t| && ScannedTo(t, cursor, ss)
      invariant RenderSegments(types, data, show, ss) == Some(result)
    {
      if t[cursor] != '{' {
        ScanLiteral(t, cursor, ss);
        RenderSnoc(types, data, show, ss, Literal(t[cursor]));
        RenderLiteral(types, data, show, t[cursor]);
        ss := ss + [Literal(t[cursor])];
        result := result + [t[cursor]];
        cursor := cursor + 1;
        continue;
      }
      ScanBrace(t, cursor, ss);
      var k := Find(t[cursor + 1..], '}');
      if k.None? {
        return None;
      }
      var p := ParsePlaceholder(t[cursor + 1..cursor + 1 + k.value]);
      if p.None? {
        return None;
      }
      RenderSnoc(types, data, show, ss, p.value);
      PlaceholderParsed(t[cursor + 1..cursor + 1 + k.value]);
      var text := RenderParam(types, data, codecs, p.value);
      if text.None? {
        RenderFails(t, cursor + 2 + k.value, ss + [p.value], types, data, show);
        return None;
      }
      ss := ss + [p.value];
      result := result + text.value;
      cursor := cursor + 2 + k.value;
    }
    ScanEnd(t, cursor, ss);
    return Some(result);
  }

  lemma PlaceholderParsed(expression: string)
    ensures ParsePlaceholder(expression).Some? ==> ParsePlaceholder(expression).value.Placeholder?
  {
    hide Find;
  }

  lemma RenderLiteral(types: seq<ParamType>, data: seq<byte>, show: Show, c: char)
    ensures RenderSegment(types, data, show, Literal(c)) == Some([c])
  {
  }

  lemma RenderSnoc(types: seq<ParamType>, data: seq<byte>, show: Show, ss: seq<Segment>, s: Segment)
    ensures RenderSegments(types, data, show, ss + [s]) ==
      match RenderSegments(types, data, show, ss)
      case None => None
      case Some(front) =>
        match RenderSegment(types, data, show, s)
        case None => None
        case Some(text) => Some(front + text)
  {
    hide RenderSegment;
    assert (ss + [s])[..|ss|] == ss;
  }

  lemma {:induction false} FailurePersists(types: seq<ParamType>, data: seq<byte>, show: Show, ss: seq<Segment>, rest: seq<Segment>)
    requires RenderSegments(types, data, show, ss).None?
    ensures RenderSegments(types, data, show, ss + rest).None?
  {
    hide RenderSegment;
    if rest == [] {
      assert ss + rest == ss;
    } else {
      var n := |rest| - 1;
      FailurePersists(types, data, show, ss, rest[..n]);
      assert ss + rest == ss + rest[..n] + [rest[n]];
      RenderSnoc(types, data, show, ss + rest[..n], rest[n]);
    }
  }

  lemma RenderFails(t: string, cursor: nat, ss: seq<Segment>, types: seq<ParamType>, data: seq<byte>, show: Show)
    requires cursor <= |t| && ScannedTo(t, cursor, ss) && RenderSegments(types, data, show, ss).None?
    ensures Render(t, types, data, show).None?
  {
    hide Scan, RenderSegments;
    if Scan(t[cursor..]).Some? {
      FailurePersists(types, data, show, ss, Scan(t[cursor..]).value);
    }
  }

  lemma DecodedType(t: ParamType, data: seq<byte>, offset: nat)
    ensures Decode(t, data, offset).Some? ==> Decode(t, data, offset).value.Type() == t
  {
    hide LE, FromLE, Slice, WordAt;
  }

  lemma SegmentIff(types: seq<ParamType>, data: seq<byte>, show: Show, s: Segment)
    ensures RenderSegment(types, data, show, s).Some? <==> SegmentValid(types, s) && Readable(types, data, show, s)
  {
    hide Decode, DecimalSpec, ParamOffset, Decimal.AmountText;
    if s.Placeholder? && s.index < |types| {
      var offset := ParamOffset(types, data, s.index);
      if offset.Some? {
        DecodedType(types[s.index], data, offset.value);
      }
    }
  }

  lemma {:induction false} SegmentsIff(types: seq<ParamType>, data: seq<byte>, show: Show, ss: seq<Segment>)
    ensures RenderSegments(types, data, show, ss).Some?
            <==> AllValid(types, ss) && forall i :: 0 <= i < |ss| ==> Readable(types, data, show, ss[i])
  {
    hide RenderSegment, SegmentValid, Readable;
    if ss != [] {
      var n := |ss| - 1;
      SegmentsIff(types, data, show, ss[..n]);
      SegmentIff(types, data, show, ss[n]);
      assert ss == ss[..n] + [ss[n]];
    }
  }

  /** Rendering succeeds exactly when validation accepts the template and every parameter it refers to
      can be read from the data. */
  lemma RenderIffValid(t: string, types: seq<ParamType>, data: seq<byte>, show: Show)
    ensures Render(t, types, data, show).Some?
            <==> Valid(t, types) && forall s :: s in Scan(t).value ==> Readable(types, data, show, s)
  {
    hide Scan, RenderSegments, Readable, AllValid;
    if Scan(t).Some? {
      SegmentsIff(types, data, show, Scan(t).value);
    }
  }

  /** `format_decimal_u64` prints the same text as the signing crate's exact amounts. */
  method FormatDecimalU64(value: u64, decimals: nat) returns (text: string)
    requires decimals <= 19
    ensures text == Decimal.AmountText(value, decimals)
  {
    hide Pow, Decimal.Dec, Decimal.Padded, Decimal.TrimEndZeros;
    PowPositive(10, decimals);
    if decimals == 0 {
      assert Pow(10, 0) == 1 by { PowZero(); }
      assert Decimal.Dec(value) + "" == Decimal.Dec(value);
      return Decimal.Dec(value);
    }
    var scale := Pow(10, decimals);
    text := Decimal.Dec(value / scale);
    var fraction := value % scale;
    if fraction != 0 {
      var digits := Decimal.Padded(fraction, decimals);
      ghost var all := digits;
      while digits != "" && digits[|digits| - 1] == '0'
        invariant Decimal.TrimEndZeros(digits) == Decimal.TrimEndZeros(all)
        decreases |digits|
      {
        TrimOne(digits);
        digits := digits[..|digits| - 1];
      }
      TrimNone(digits);
      ghost var whole := text;
      text := text + ".";
      text := text + digits;
      assert text == whole + ("." + digits);
    } else {
      assert text + "" == text;
    }
  }

  lemma PowZero()
    ensures Pow(10, 0) == 1
  {
  }

  lemma TrimOne(s: string)
    requires s != "" && s[|s| - 1] == '0'
    ensures Decimal.TrimEndZeros(s) == Decimal.TrimEndZeros(s[..|s| - 1])
  {
  }

  lemma TrimNone(s: string)
    requires s != "" ==> s[|s| - 1] != '0'
    ensures Decimal.TrimEndZeros(s) == s
  {
  }
}

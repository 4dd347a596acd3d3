/** The cursors of the signing crate: a reader that advances over a slice, and a writer that fills a
    caller's buffer and never writes past its end. */
module Io {
  import opened Base
  import opened Model
  import opened Wire
  import Decimal
  import Base58

  /** A cursor over the bytes that are still to be read. */
  class Reader {
    var remaining: seq<byte>

    constructor (bytes: seq<byte>)
      ensures remaining == bytes
    {
      remaining := bytes;
    }

    /** The reader returned what `spec` reads, and moved on by as much. */
    ghost predicate Reads<T>(spec: Read<T>, r: Result<T, Error>)
      reads this
    {
      match spec
      case Ok((v, rest)) => r == Ok(v) && remaining == rest
      case Err(e) => r == Err(e)
    }

    method Take(n: nat) returns (r: Result<seq<byte>, Error>)
      modifies this
      ensures Reads(Wire.Take(old(remaining), n), r)
      ensures r.Err? ==> remaining == old(remaining)
    {
      if |remaining| < n {
        return Err(InvalidLength);
      }
      r := Ok(remaining[..n]);
      remaining := remaining[n..];
    }

    method U8() returns (r: Result<byte, Error>)
      modifies this
      ensures Reads(ReadU8(old(remaining)), r)
    {
      var v :- Take(1);
      return Ok(v[0]);
    }

    method U32() returns (r: Result<u32, Error>)
      modifies this
      ensures Reads(ReadU32(old(remaining)), r)
    {
      var v :- Take(4);
      FromLEBound(v);
      WordSizes();
      return Ok(FromLE(v));
    }

    method U64() returns (r: Result<u64, Error>)
      modifies this
      ensures Reads(ReadU64(old(remaining)), r)
    {
      var v :- Take(8);
      FromLEBound(v);
      WordSizes();
      return Ok(FromLE(v));
    }

    method U128() returns (r: Result<u128, Error>)
      modifies this
      ensures Reads(ReadU128(old(remaining)), r)
    {
      var v :- Take(16);
      FromLEBound(v);
      WordSizes();
      return Ok(FromLE(v));
    }

    method I64() returns (r: Result<i64, Error>)
      modifies this
      ensures Reads(ReadI64(old(remaining)), r)
    {
      var w :- U64();
      return Ok(FromTwos(w));
    }

    method Array32() returns (r: Result<Bytes32, Error>)
      modifies this
      ensures Reads(ReadArray32(old(remaining)), r)
    {
      var v :- Take(32);
      return Ok(v);
    }

    method Bytes(max: nat) returns (r: Result<seq<byte>, Error>)
      modifies this
      ensures Reads(ReadBytes(old(remaining), max), r)
    {
      var prefix :- Take(2);
      var len := FromLE(prefix);
      if len > max {
        return Err(InvalidLength);
      }
      r := Take(len);
    }
  }

  /** A cursor over a fixed buffer; everything before it has been written. */
  class Writer {
    const out: array<byte>
    var len: nat

    ghost predicate Valid()
      reads this
    {
      len <= out.Length
    }

    ghost function Contents(): (s: seq<byte>)
      requires Valid()
      reads this, out
      ensures |s| == len
    {
      out[..len]
    }

    constructor (out: array<byte>)
      ensures Valid() && this.out == out && Contents() == []
    {
      this.out := out;
      len := 0;
    }

    /** `text` was appended if it fits, and otherwise the buffer was reported as too small. */
    ghost predicate Wrote(before: seq<byte>, text: seq<byte>, r: Check)
      requires Valid()
      reads this, out
    {
      && r == (if |before| + |text| <= out.Length then Ok(()) else Err(BufferTooSmall))
      && (r.Ok? ==> Contents() == before + text)
    }

    method Push(value: seq<byte>) returns (r: Check)
      requires Valid()
      modifies this`len, out
      ensures Valid() && Wrote(old(Contents()), value, r)
      ensures forall i :: len <= i < out.Length ==> out[i] == old(out[i])
      ensures r.Err? ==> unchanged(this, out)
    {
      var end := len + |value|;
      if end > out.Length {
        return Err(BufferTooSmall);
      }
      ghost var before := Contents();
      forall i | 0 <= i < |value| {
        out[len + i] := value[i];
      }
      len := end;
      assert Contents() == before + value;
      return Ok(());
    }

    method U8(value: byte) returns (r: Check)
      requires Valid()
      modifies this`len, out
      ensures Valid() && Wrote(old(Contents()), [value], r)
    {
      r := Push([value]);
    }

    method Word(value: nat, size: nat) returns (r: Check)
      requires Valid()
      modifies this`len, out
      ensures Valid() && Wrote(old(Contents()), LE(value, size), r)
    {
      r := Push(LE(value, size));
    }

    /** A length-prefixed field. Longer than a `u16` can say, it is refused before any write. */
    method Bytes(value: seq<byte>) returns (r: Check)
      requires Valid()
      modifies this`len, out
      ensures Valid()
      ensures |value| >= 0x1_0000 ==> r == Err(InvalidLength) && unchanged(this, out)
      ensures |value| < 0x1_0000 ==> Wrote(old(Contents()), Text16(value, []), r)
    {
      if |value| >= 0x1_0000 {
        return Err(InvalidLength);
      }
      ghost var before := Contents();
      assert (before + LE(|value|, 2)) + value == before + Text16(value, []);
      var _ :- Push(LE(|value|, 2));
      r := Push(value);
    }

    method DecimalU128(value: u128) returns (r: Check)
      requires Valid()
      modifies this`len, out
      ensures Valid() && Wrote(old(Contents()), Ascii(Decimal.Dec(value)), r)
    {
      hide Pow, Ascii, Decimal.Dec;
      var digits := new byte[39];
      var remaining: nat, cursor := value, 39;
      PowLimit();
      while true
        invariant 0 < cursor <= 39 && remaining < Pow(10, cursor)
        invariant cursor == 39 ==> remaining == value
        invariant cursor < 39 ==> remaining > 0
        invariant cursor < 39 ==> Ascii(Decimal.Dec(value)) == Ascii(Decimal.Dec(remaining)) + digits[cursor..]
        modifies digits
        decreases cursor
      {
        ghost var tail := digits[cursor..];
        DecStep(remaining, cursor);
        cursor := cursor - 1;
        digits[cursor] := '0' as int + remaining % 10;
        assert digits[cursor..] == ['0' as int + remaining % 10] + tail;
        assert cursor == 38 ==> tail == [];
        remaining := remaining / 10;
        if remaining == 0 {
          break;
        }
      }
      assert Ascii(Decimal.Dec(value)) == digits[cursor..];
      r := Push(digits[cursor..]);
    }

    /** The `-` of a negative number and the decimal text of its magnitude. */
    method SignedDecimalI64(value: i64) returns (r: Check)
      requires Valid()
      modifies this`len, out
      ensures Valid() && Wrote(old(Contents()), Ascii(SignedText(value)), r)
    {
      if value < 0 {
        AsciiAppend("-", Decimal.Dec(Magnitude(value)));
        var _ :- Push(Ascii("-"));
      } else {
        assert "" + Decimal.Dec(Magnitude(value)) == Decimal.Dec(Magnitude(value));
      }
      r := DecimalU128(Magnitude(value));
    }

    /** The exact decimal value of `raw / 10^decimals`. The scratch buffer has 36 places; 37 and 38
        decimals still fit a `u128` scale, so there the amount must be whole. */
    method Amount(raw: u128, decimals: byte) returns (r: Check)
      requires Valid()
      requires 37 <= decimals <= 38 ==> raw % Scale(decimals) == 0
      modifies this`len, out
      ensures Valid()
      ensures decimals >= 39 ==> r == Err(InvalidAmount) && unchanged(this, out)
      ensures decimals <= 38 ==> Wrote(old(Contents()), Ascii(Decimal.AmountText(raw, decimals)), r)
    {
      hide Pow, Ascii, Decimal.AmountText, Decimal.Dec, Contents;
      if decimals == 0 {
        WholeText(raw);
        r := DecimalU128(raw);
        return;
      }
      if decimals >= 39 {
        return Err(InvalidAmount);
      }
      r := ScaledAmount(raw, decimals);
    }

    /** The part of `Amount` behind its two guards. */
    method ScaledAmount(raw: u128, decimals: byte) returns (r: Check)
      requires Valid() && 1 <= decimals <= 38
      requires 37 <= decimals ==> raw % Scale(decimals) == 0
      modifies this`len, out
      ensures Valid() && Wrote(old(Contents()), Ascii(Decimal.AmountText(raw, decimals)), r)
    {
      hide Pow, Ascii, Decimal.Dec, Decimal.AmountText, Decimal.TrimEndZeros, Decimal.Padded, Contents;
      var scale := Scale(decimals);
      var whole, fraction := raw / scale, raw % scale;
      QuotientFits(raw, scale);
      AmountParts(raw, decimals);
      ghost var before := Contents();
      var _ :- DecimalU128(whole);
      if fraction == 0 {
        return Ok(());
      }
      var _ :- Push(Ascii("."));
      ghost var w, d := Ascii(Decimal.Dec(whole)), Ascii(".");
      ghost var f := Ascii(Decimal.TrimEndZeros(Decimal.Padded(fraction, decimals)));
      Assoc(before, w, d);
      Assoc(before, w + d, f);
      var digits, end := FractionDigits(fraction, decimals);
      r := Push(digits[..end]);
    }

    /** Two lower-case hexadecimal letters a byte. */
    method Hex(value: seq<byte>) returns (r: Check)
      requires Valid()
      modifies this`len, out
      ensures Valid() && Wrote(old(Contents()), HexText(value), r)
    {
      assert Contents() + HexText([]) == Contents();
      ghost var before := Contents();
      for i := 0 to |value|
        invariant Valid() && Contents() == before + HexText(value[..i])
      {
        assert value[..i + 1][..i] == value[..i];
        assert |HexText(value[..i + 1])| <= |HexText(value)|;
        var _ :- Push([HexLetter(value[i] / 16), HexLetter(value[i] % 16)]);
      }
      assert value[..|value|] == value;
      return Ok(());
    }

    /** An identity as signers read it: base58 for a key, verbatim otherwise. */
    method Identity(encoding: IdentityEncoding, value: seq<byte>) returns (r: Check)
      requires Valid()
      modifies this`len, out
      ensures Valid()
      ensures encoding.SolanaPubkey? && |Base58.Base58Text(value)| > 44 ==> r == Err(InvalidLength) && unchanged(this, out)
      ensures !(encoding.SolanaPubkey? && |Base58.Base58Text(value)| > 44) ==>
                Wrote(old(Contents()), IdentityText(encoding, value), r)
    {
      hide Base58.LeadingZeros, Base58.NumberDigits;
      if encoding.SolanaPubkey? {
        var buffer := new byte[44];
        var n := Base58.EncodeBase58(value, buffer);
        if n.None? {
          return Err(InvalidLength);
        }
        r := Push(buffer[..n.value]);
      } else {
        r := Push(value);
      }
    }

    /** One key, which always has a text of at most 44 letters. */
    method Key(key: Bytes32) returns (r: Check)
      requires Valid()
      modifies this`len, out
      ensures Valid() && Wrote(old(Contents()), Base58.Base58Text(key), r)
    {
      hide Base58.LeadingZeros, Base58.NumberDigits, Base58.Base58Text, Contents;
      Base58.KeyFits(key);
      var buffer := new byte[44];
      var n := Base58.EncodeBase58(key, buffer);
      r := Push(buffer[..n.value]);
    }

    /** A list of keys, as base58 texts with commas between them. */
    method Pubkeys(bytes: seq<byte>, count: byte) returns (r: Check)
      requires Valid()
      modifies this`len, out
      ensures Valid()
      ensures |bytes| != count * 32 ==> r == Err(InvalidLength) && unchanged(this, out)
      ensures |bytes| == count * 32 ==> Wrote(old(Contents()), KeyListText(Chunks(bytes)), r)
    {
      hide Base58.Base58Text, Contents, Chunks, KeyListText, Ascii, Separator;
      if |bytes| != count * 32 {
        return Err(InvalidLength);
      }
      ghost var keys, before := Chunks(bytes), Contents();
      ChunksCount(bytes);
      NoKeys();
      assert keys[..0] == [] && before + [] == before;
      for i := 0 to count as int
        invariant Valid() && Contents() == before + KeyListText(keys[..i])
      {
        ChunkAt(bytes, i);
        KeyListStep(keys, i);
        KeyListGrows(keys, i + 1);
        SeparatorIs(i);
        if i > 0 {
          var _ :- Push(Ascii(", "));
        }
        var key: Bytes32 := bytes[i * 32..i * 32 + 32];
        var _ :- Key(key);
        assert before + (KeyListText(keys[..i]) + Separator(i) + Base58.Base58Text(key))
            == before + KeyListText(keys[..i]) + Separator(i) + Base58.Base58Text(key);
      }
      assert keys[..|keys|] == keys;
      return Ok(());
    }
  }

  function Separator(i: nat): seq<byte> { if i > 0 then Ascii(", ") else [] }

  lemma SeparatorIs(i: nat)
    ensures Separator(i) == if i > 0 then Ascii(", ") else []
  {
  }

  function KeyListText(keys: seq<Bytes32>): seq<byte> {
    if keys == [] then [] else
    KeyListText(keys[..|keys| - 1]) + Separator(|keys| - 1) + Base58.Base58Text(keys[|keys| - 1])
  }

  lemma NoKeys()
    ensures KeyListText([]) == []
  {
  }

  lemma KeyListStep(keys: seq<Bytes32>, i: nat)
    requires i < |keys|
    ensures KeyListText(keys[..i + 1]) == KeyListText(keys[..i]) + Separator(i) + Base58.Base58Text(keys[i])
  {
    hide Base58.Base58Text, Separator;
    assert keys[..i + 1][..i] == keys[..i];
  }

  lemma {:induction false} KeyListGrows(keys: seq<Bytes32>, i: nat)
    requires i <= |keys|
    ensures |KeyListText(keys[..i])| <= |KeyListText(keys)|
    decreases |keys|
  {
    hide Base58.Base58Text, Separator;
    if i < |keys| {
      KeyListGrows(keys[..|keys| - 1], i);
      assert keys[..|keys| - 1][..i] == keys[..i];
    } else {
      assert keys[..i] == keys;
    }
  }

  lemma {:induction false} ChunksCount(s: seq<byte>)
    requires |s| % 32 == 0
    ensures |Chunks(s)| * 32 == |s|
  {
    if s != [] {
      ChunksCount(s[32..]);
    }
  }

  lemma ChunksFirst(s: seq<byte>)
    requires |s| % 32 == 0 && s != []
    ensures |s| >= 32 && Chunks(s) == [s[..32]] + Chunks(s[32..])
  {
    hide Flat;
  }

  lemma {:induction false} ChunkAt(s: seq<byte>, i: nat)
    requires |s| % 32 == 0 && i * 32 < |s|
    ensures i < |Chunks(s)| && Chunks(s)[i] == s[i * 32..i * 32 + 32]
  {
    hide Chunks;
    ChunksFirst(s);
    if i == 0 {
      assert s[0..32] == s[..32];
    } else {
      var j := (i - 1) * 32;
      ChunkAt(s[32..], i - 1);
      SliceOfDrop(s, 32, j, 32);
    }
  }

  lemma SliceOfDrop(s: seq<byte>, d: nat, j: nat, n: nat)
    requires d + j + n <= |s|
    ensures s[d..][j..j + n] == s[d + j..d + j + n]
  {
  }

  /** `unsigned_abs`. */
  function Magnitude(value: int): nat {
    if value < 0 then -value else value
  }

  function SignedText(value: i64): string {
    (if value < 0 then "-" else "") + Decimal.Dec(Magnitude(value))
  }

  function Scale(decimals: nat): (p: nat)
    ensures p == Pow(10, decimals) > 0
  {
    PowPositive(10, decimals);
    Pow(10, decimals)
  }

  function HexLetter(d: nat): byte
    requires d < 16
  {
    if d < 10 then '0' as int + d else 'a' as int + (d - 10)
  }

  function Chars(s: seq<byte>): (r: string)
    ensures |r| == |s|
  {
    seq(|s|, i requires 0 <= i < |s| => s[i] as char)
  }

  function HexText(value: seq<byte>): (r: seq<byte>)
    ensures |r| == 2 * |value|
  {
    if value == [] then [] else
    var b := value[|value| - 1];
    HexText(value[..|value| - 1]) + [HexLetter(b / 16), HexLetter(b % 16)]
  }

  function IdentityText(encoding: IdentityEncoding, value: seq<byte>): seq<byte> {
    if encoding.SolanaPubkey? then Base58.Base58Text(value) else value
  }

  lemma WholeText(raw: nat)
    ensures Decimal.AmountText(raw, 0) == Decimal.Dec(raw)
  {
    hide Decimal.Dec, Decimal.Padded, Decimal.TrimEndZeros;
    assert Pow(10, 0) == 1;
    assert raw / 1 == raw && raw % 1 == 0;
    Nothing(Decimal.Dec(raw));
  }

  lemma AmountParts(raw: nat, decimals: nat)
    ensures var whole, fraction := raw / Scale(decimals), raw % Scale(decimals);
      Ascii(Decimal.AmountText(raw, decimals)) ==
        if fraction == 0 then Ascii(Decimal.Dec(whole)) else
        Ascii(Decimal.Dec(whole)) + Ascii(".") + Ascii(Decimal.TrimEndZeros(Decimal.Padded(fraction, decimals)))
  {
    hide Ascii, Decimal.Dec, Decimal.TrimEndZeros, Decimal.Padded;
    var whole, fraction := raw / Scale(decimals), raw % Scale(decimals);
    var w, f := Decimal.Dec(whole), Decimal.TrimEndZeros(Decimal.Padded(fraction, decimals));
    assert w + "" == w;
    assert w + ("." + f) == (w + ".") + f;
    AsciiAppend(w + ".", f);
    AsciiAppend(w, ".");
  }

  lemma QuotientFits(n: nat, m: nat)
    requires m > 0
    ensures 0 <= n / m <= n
  {
    DivMod(n, m);
    MulGrows(m, n / m);
  }

  /** The fill loop: the places are filled from the right. */
  method FillDigits(fraction: nat, width: nat) returns (digits: array<byte>)
    requires 0 < width <= 36
    ensures fresh(digits) && digits.Length == 36 && digits[..width] == Ascii(Decimal.Padded(fraction, width))
  {
    hide Pow, Ascii, Decimal.Padded;
    digits := new byte[36](_ => '0' as int);
    ghost var text := Ascii(Decimal.Padded(fraction, width));
    var remaining: nat := fraction;
    var index := width;
    Nothing(text);
    assert digits[width..width] == [];
    while index > 0
      invariant 0 <= index <= width && digits.Length == 36
      invariant text == Ascii(Decimal.Padded(remaining, index)) + digits[index..width]
      modifies digits
    {
      ghost var tail := digits[index..width];
      PaddedStep(remaining, index);
      index := index - 1;
      digits[index] := '0' as int + remaining % 10;
      assert digits[index..width] == ['0' as int + remaining % 10] + tail;
      Assoc(Ascii(Decimal.Padded(remaining / 10, index)), ['0' as int + remaining % 10], tail);
      remaining := remaining / 10;
    }
    assert Ascii(Decimal.Padded(remaining, 0)) == [];
    Nothing(digits[0..width]);
  }

  /** The digits of a fraction: the places, and where they end once the trailing zeros are dropped. */
  method FractionDigits(fraction: nat, width: nat) returns (digits: array<byte>, end: nat)
    requires 0 < width <= 36
    ensures fresh(digits) && end <= digits.Length
    ensures digits[..end] == Ascii(Decimal.TrimEndZeros(Decimal.Padded(fraction, width)))
  {
    hide Pow, Ascii, Decimal.TrimEndZeros, Decimal.Padded;
    digits := FillDigits(fraction, width);
    ghost var text, bytes := Decimal.Padded(fraction, width), digits[..width];
    end := width;
    assert text[..width] == text;
    while end > 0 && digits[end - 1] == '0' as int
      invariant digits[..width] == bytes
      invariant end <= width && Decimal.TrimEndZeros(text[..end]) == Decimal.TrimEndZeros(text)
    {
      TrimStep(text, end, bytes);
      end := end - 1;
    }
    TrimDone(text, end, bytes);
    assert digits[..end] == bytes[..end];
  }

  lemma PaddedStep(n: nat, w: nat)
    requires w > 0
    ensures Ascii(Decimal.Padded(n, w)) == Ascii(Decimal.Padded(n / 10, w - 1)) + ['0' as int + n % 10]
  {
    var c := Decimal.Digit(n % 10);
    assert Ascii([c]) == ['0' as int + n % 10];
    AsciiAppend(Decimal.Padded(n / 10, w - 1), [c]);
  }

  lemma TrimStep(text: string, end: nat, bytes: seq<byte>)
    requires 0 < end <= |text| && Decimal.AllDigits(text) && bytes == Ascii(text) && bytes[end - 1] == '0' as int
    ensures Decimal.TrimEndZeros(text[..end - 1]) == Decimal.TrimEndZeros(text[..end])
  {
    assert text[end - 1] == '0';
    assert text[..end][..end - 1] == text[..end - 1];
  }

  lemma TrimDone(text: string, end: nat, bytes: seq<byte>)
    requires end <= |text| && Decimal.AllDigits(text) && bytes == Ascii(text)
    requires end > 0 ==> bytes[end - 1] != '0' as int
    ensures bytes[..end] == Ascii(Decimal.TrimEndZeros(text[..end]))
  {
    assert end > 0 ==> text[end - 1] != '0';
  }

  /** The largest power of ten in a `u128`. */
  lemma PowLimit()
    ensures Pow(10, 38) < Decimal.U128_LIMIT <= Pow(10, 39)
  {
    assert Pow(10, 13) == 10_000_000_000_000;
    PowAdd(10, 13, 13);
    assert Pow(10, 26) == 100_000_000_000_000_000_000_000_000;
    assert Pow(10, 12) == 1_000_000_000_000;
    PowAdd(10, 12, 26);
    PowAdd(10, 13, 26);
  }

  lemma AsciiAppend(a: string, b: string)
    ensures Ascii(a + b) == Ascii(a) + Ascii(b)
  {
  }

  /** One turn of the digit loop. */
  lemma DecStep(n: nat, width: nat)
    requires width > 0 && n < Pow(10, width)
    ensures n / 10 < Pow(10, width - 1)
    ensures Ascii(Decimal.Dec(n)) == (if n < 10 then [] else Ascii(Decimal.Dec(n / 10))) + ['0' as int + n % 10]
    ensures n / 10 > 0 ==> width > 1
  {
    var c := Decimal.Digit(n % 10);
    assert Ascii([c]) == ['0' as int + n % 10];
    if n >= 10 {
      AsciiAppend(Decimal.Dec(n / 10), [c]);
    } else {
      assert [] + ['0' as int + n % 10] == ['0' as int + n % 10];
    }
    assert Pow(10, width) == 10 * Pow(10, width - 1);
    assert width == 1 ==> Pow(10, 0) == 1;
  }
}

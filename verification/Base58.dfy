/** Base58 text of identities: the big-number loop, and the number it stands for. */
module Base58 {
  import opened Base

  // ----- Positional numbers, most significant digit first -----

  predicate DigitsBelow(ds: seq<int>, base: nat) {
    forall i :: 0 <= i < |ds| ==> 0 <= ds[i] < base
  }

  function Horner(ds: seq<int>, base: nat): nat
    requires DigitsBelow(ds, base)
  {
    if ds == [] then 0 else Horner(ds[..|ds| - 1], base) * base + ds[|ds| - 1]
  }

  /** The digits of `v`, none for zero. */
  function Digits(v: nat, base: nat): (ds: seq<int>)
    requires base >= 2
    ensures DigitsBelow(ds, base) && (ds != [] ==> ds[0] != 0) && (ds == [] <==> v == 0)
  {
    if v == 0 then [] else Digits(v / base, base) + [v % base]
  }

  lemma HornerSnoc(ds: seq<int>, d: int, base: nat)
    requires DigitsBelow(ds, base) && 0 <= d < base
    ensures DigitsBelow(ds + [d], base) && Horner(ds + [d], base) == Horner(ds, base) * base + d
  {
    assert (ds + [d])[..|ds|] == ds;
  }

  lemma {:induction false} HornerDigits(v: nat, base: nat)
    requires base >= 2
    ensures Horner(Digits(v, base), base) == v
  {
    hide Horner;
    if v == 0 {
      assert Horner([], base) == 0 by { HornerEmpty(base); }
    } else {
      HornerDigits(v / base, base);
      HornerSnoc(Digits(v / base, base), v % base, base);
      DivMod(v, base);
    }
  }

  lemma HornerEmpty(base: nat)
    ensures Horner([], base) == 0
  {
  }

  /** Digits without a leading zero are determined by their value. */
  lemma {:induction false} HornerUnique(ds: seq<int>, base: nat)
    requires base >= 2 && DigitsBelow(ds, base) && (ds != [] ==> ds[0] != 0)
    ensures Digits(Horner(ds, base), base) == ds
  {
    if ds != [] {
      var front, d := ds[..|ds| - 1], ds[|ds| - 1];
      HornerUnique(front, base);
      DivModUnique(Horner(front, base), d, base);
      assert Horner(ds, base) > 0 by {
        if front != [] {
          assert Horner(front, base) > 0;
          assert Horner(front, base) * base > 0;
        }
      }
      assert ds == front + [d];
    }
  }

  lemma Distribute(d: int, p: int, h: int, base: int)
    ensures (d * p + h) * base == d * (base * p) + h * base
  {
    assert d * p * base == d * (base * p);
  }

  lemma {:induction false} HornerCons(d: int, ds: seq<int>, base: nat)
    requires 0 <= d < base && DigitsBelow(ds, base)
    ensures DigitsBelow([d] + ds, base) && Horner([d] + ds, base) == d * Pow(base, |ds|) + Horner(ds, base)
  {
    var s := [d] + ds;
    if ds == [] {
      assert s[..0] == [];
    } else {
      var front, e := ds[..|ds| - 1], ds[|ds| - 1];
      HornerCons(d, front, base);
      assert s[..|s| - 1] == [d] + front;
      Distribute(d, Pow(base, |front|), Horner(front, base), base);
    }
  }

  lemma BelowStep(h: nat, d: nat, q: nat, p: nat, base: nat)
    requires d < base
    ensures h < p ==> h * base + d < base * p
    ensures q <= h ==> base * q <= h * base + d
  {
    if h < p {
      MulMonotone(h + 1, p, base);
    }
    if q <= h {
      MulMonotone(q, h, base);
    }
  }

  lemma {:induction false} HornerBelow(ds: seq<int>, base: nat)
    requires base >= 2 && DigitsBelow(ds, base)
    ensures Horner(ds, base) < Pow(base, |ds|)
    ensures ds != [] && ds[0] != 0 ==> Pow(base, |ds| - 1) <= Horner(ds, base)
  {
    if |ds| == 1 {
      assert ds[..0] == [];
      assert Pow(base, 0) == 1;
    } else if ds != [] {
      var front := ds[..|ds| - 1];
      HornerBelow(front, base);
      BelowStep(Horner(front, base), ds[|ds| - 1], Pow(base, |front| - 1), Pow(base, |front|), base);
    }
  }

  lemma {:induction false} HornerZeros(n: nat, ds: seq<int>, base: nat)
    requires base >= 2 && DigitsBelow(ds, base)
    ensures DigitsBelow(Zeros(n) + ds, base) && Horner(Zeros(n) + ds, base) == Horner(ds, base)
  {
    if n == 0 {
      assert Zeros(0) + ds == ds;
    } else {
      HornerCons(0, ds, base);
      HornerZeros(n - 1, [0] + ds, base);
      assert Zeros(n) + ds == Zeros(n - 1) + ([0] + ds);
    }
  }

  function Rev(s: seq<int>): (r: seq<int>)
    ensures |r| == |s| && forall i :: 0 <= i < |s| ==> r[i] == s[|s| - 1 - i]
  {
    if s == [] then [] else [s[|s| - 1]] + Rev(s[..|s| - 1])
  }

  // ----- The text -----

  /** `123456789ABCDEFGHJKLMNPQRSTUVWXYZabcdefghijkmnopqrstuvwxyz`, run by run. */
  function Letter(d: int): byte
    requires 0 <= d < 58
  {
    if d < 9 then '1' as int + d
    else if d < 17 then 'A' as int + (d - 9)
    else if d < 22 then 'J' as int + (d - 17)
    else if d < 33 then 'P' as int + (d - 22)
    else if d < 44 then 'a' as int + (d - 33)
    else 'm' as int + (d - 44)
  }

  function Letters(ds: seq<int>): (r: seq<byte>)
    requires DigitsBelow(ds, 58)
    ensures |r| == |ds| && forall i :: 0 <= i < |ds| ==> r[i] == Letter(ds[i])
  {
    seq(|ds|, i requires 0 <= i < |ds| => Letter(ds[i]))
  }

  function LeadingZeros(s: seq<byte>): (n: nat)
    ensures n <= |s| && s == Zeros(n) + s[n..] && (n < |s| ==> s[n] != 0)
  {
    hide Zeros;
    NoZeros();
    if s != [] && s[0] == 0 then
      var n := 1 + LeadingZeros(s[1..]);
      ZerosFront(n - 1);
      Assoc([0], Zeros(n - 1), s[n..]);
      assert s == [0] + s[1..];
      n
    else
      assert s[0..] == s;
      Nothing(s);
      0
  }

  lemma NoZeros()
    ensures Zeros(0) == []
  {
  }

  lemma {:induction false} ZerosFront(n: nat)
    ensures [0] + Zeros(n) == Zeros(n + 1)
  {
  }

  function Ones(n: nat): (r: seq<byte>)
    ensures |r| == n && forall i :: 0 <= i < n ==> r[i] == Letter(0)
  {
    seq(n, i => Letter(0))
  }

  /** The digits printed for a non-empty input: at least one, so that zero prints a digit too. */
  function NumberDigits(input: seq<byte>): (ds: seq<int>)
    ensures DigitsBelow(ds, 58) && ds != []
  {
    var ds := Digits(Horner(input, 256), 58);
    if ds == [] then [0] else ds
  }

  function Base58Text(input: seq<byte>): seq<byte> {
    if input == [] then [] else Ones(LeadingZeros(input)) + Letters(NumberDigits(input))
  }

  // ----- The loop -----

  /** The number held in the first digits of the buffer, least significant first. */
  ghost function Held(ds: seq<int>): nat
    requires DigitsBelow(ds, 58)
  {
    Horner(Rev(ds), 58)
  }

  lemma HeldSnoc(ds: seq<int>, d: int)
    requires DigitsBelow(ds, 58) && 0 <= d < 58
    ensures DigitsBelow(ds + [d], 58) && Held(ds + [d]) == Held(ds) + d * Pow(58, |ds|)
  {
    assert (ds + [d])[..|ds|] == ds;
    assert Rev(ds + [d]) == [d] + Rev(ds);
    HornerCons(d, Rev(ds), 58);
  }

  lemma CarryStep(h: nat, carry: nat, old': nat, d: nat, p: nat, byte': nat, c: nat)
    requires c == carry + d * 256 && h + carry * p == 256 * old' + byte'
    ensures h + (c % 58) * p + (c / 58) * (58 * p) == 256 * (old' + d * p) + byte'
  {
    var q, r := c / 58, c % 58;
    Distribute(q, 58, r, p);
    assert q * (58 * p) == q * (p * 58);
    assert (carry + d * 256) * p == carry * p + 256 * (d * p);
  }

  /** The buffer times 256 plus one byte, in place; what does not fit is the carry. */
  method MulAdd(digits: array<int>, len: nat, byte': byte) returns (carry: nat)
    requires len <= digits.Length && DigitsBelow(digits[..len], 58)
    modifies digits
    ensures DigitsBelow(digits[..len], 58) && carry < 256
    ensures Held(digits[..len]) + carry * Pow(58, len) == 256 * old(Held(digits[..len])) + byte'
  {
    hide Held, Pow;
    ghost var before := digits[..len];
    carry := byte';
    assert digits[..0] == before[..0] == [];
    assert Held([]) == 0 && Pow(58, 0) == 1 by { HeldEmpty(); }
    for j := 0 to len
      invariant carry < 256 && digits[j..len] == before[j..] && DigitsBelow(digits[..j], 58)
      invariant Held(digits[..j]) + carry * Pow(58, j) == 256 * Held(before[..j]) + byte'
    {
      ghost var front := digits[..j];
      assert digits[j] == digits[j..len][0] == before[j];
      var c := carry + digits[j] * 256;
      assert before[..j + 1] == before[..j] + [before[j]];
      HeldSnoc(before[..j], before[j]);
      HeldSnoc(front, c % 58);
      CarryStep(Held(front), carry, Held(before[..j]), before[j], Pow(58, j), byte', c);
      PowStep(58, j);
      assert digits[j + 1..len] == digits[j..len][1..];
      digits[j] := c % 58;
      assert digits[..j + 1] == front + [c % 58];
      assert digits[j + 1..len] == before[j + 1..];
      carry := c / 58;
    }
    assert before[..len] == before;
  }

  lemma HeldEmpty()
    ensures Held([]) == 0 && Pow(58, 0) == 1
  {
  }

  lemma PowStep(base: nat, e: nat)
    ensures Pow(base, e + 1) == base * Pow(base, e)
  {
  }

  /** The carry becomes further digits, if the buffer has room for them. */
  method Extend(digits: array<int>, len: nat, carry: nat) returns (len': nat, fits: bool)
    requires len <= digits.Length && DigitsBelow(digits[..len], 58)
    modifies digits
    ensures len <= len' <= digits.Length && DigitsBelow(digits[..len'], 58)
    ensures fits ==> Held(digits[..len']) == old(Held(digits[..len])) + carry * Pow(58, len)
    ensures !fits ==> old(Held(digits[..len])) + carry * Pow(58, len) >= Pow(58, digits.Length)
  {
    hide Held, Pow;
    ghost var total := Held(digits[..len]) + carry * Pow(58, len);
    len' := len;
    var left: nat := carry;
    while left > 0
      invariant len <= len' <= digits.Length && DigitsBelow(digits[..len'], 58)
      invariant Held(digits[..len']) + left * Pow(58, len') == total
    {
      if len' >= digits.Length {
        MulGrows(left, Pow(58, len'));
        return len', false;
      }
      ghost var front := digits[..len'];
      HeldSnoc(front, left % 58);
      DivMod(left, 58);
      Distribute(left / 58, 58, left % 58, Pow(58, len'));
      PowStep(58, len');
      digits[len'] := left % 58;
      assert digits[..len' + 1] == front + [left % 58];
      len' := len' + 1;
      left := left / 58;
    }
    assert left == 0 && left * Pow(58, len') == 0;
    return len', true;
  }

  lemma {:induction false} HornerPrefix(ds: seq<int>, k: nat, base: nat)
    requires base >= 2 && DigitsBelow(ds, base) && k <= |ds|
    ensures Horner(ds[..k], base) <= Horner(ds, base)
    decreases |ds|
  {
    if k == |ds| {
      assert ds[..k] == ds;
    } else {
      var front := ds[..|ds| - 1];
      HornerPrefix(front, k, base);
      assert front[..k] == ds[..k];
      MulGrows(base, Horner(front, base));
    }
  }

  /** A number of at least 58^64 needs more digits than the buffer has. */
  lemma Overflows(input: seq<byte>, k: nat)
    requires k <= |input| && Horner(input[..k], 256) >= Pow(58, 64)
    ensures |NumberDigits(input)| > 64
  {
    HornerPrefix(input, k, 256);
    var v := Horner(input, 256);
    var ds := Digits(v, 58);
    HornerDigits(v, 58);
    HornerBelow(ds, 58);
    PowPositive(58, 64);
    if |ds| <= 64 {
      PowMonotone(58, |ds|, 64);
    }
  }

  lemma LeadingZerosIs(s: seq<byte>, n: nat)
    requires n <= |s| && (forall i :: 0 <= i < n ==> s[i] == 0) && (n < |s| ==> s[n] != 0)
    ensures LeadingZeros(s) == n
  {
    var m := LeadingZeros(s);
    assert s == Zeros(m) + s[m..];
    assert forall i :: 0 <= i < m ==> s[i] == Zeros(m)[i];
  }

  /** A trimmed buffer spells the digits of its number. */
  lemma TrimmedDigits(ds: seq<int>, input: seq<byte>)
    requires ds != [] && DigitsBelow(ds, 58) && (|ds| > 1 ==> ds[|ds| - 1] != 0)
    requires Held(ds) == Horner(input, 256)
    ensures Rev(ds) == NumberDigits(input)
  {
    var msb := Rev(ds);
    hide Horner, Digits, Rev;
    if msb == [0] {
      HornerEmpty(58);
      HornerSnoc([], 0, 58);
      assert [] + [0] == msb;
    } else {
      assert msb[0] == ds[|ds| - 1];
      HornerUnique(msb, 58);
    }
  }

  /** The two output loops: the leading ones, then the letters of the buffer read backwards. */
  method WriteText(zeros: nat, digits: array<int>, len: nat, out: array<byte>)
    requires len <= digits.Length && DigitsBelow(digits[..len], 58) && zeros + len <= out.Length
    modifies out
    ensures out[..zeros + len] == Ones(zeros) + Letters(Rev(digits[..len]))
  {
    ghost var msb := Rev(digits[..len]);
    for i := 0 to zeros
      invariant forall k :: 0 <= k < i ==> out[k] == Letter(0)
    {
      out[i] := Letter(0);
    }
    for i := 0 to len
      invariant digits[..len] == old(digits[..len])
      invariant forall k :: 0 <= k < zeros ==> out[k] == Letter(0)
      invariant forall k :: 0 <= k < i ==> out[zeros + k] == Letter(msb[k])
    {
      assert msb[i] == digits[..len][len - 1 - i] == digits[len - 1 - i];
      out[zeros + i] := Letter(digits[len - 1 - i]);
    }
  }

  /** The number of the input in base 58, least significant digit first, if 64 digits suffice. */
  method ToDigits(input: seq<byte>) returns (digits: array<int>, digitLen: nat, fits: bool)
    requires input != []
    ensures fresh(digits) && digits.Length == 64
    ensures !fits ==> |NumberDigits(input)| > 64
    ensures fits ==> 1 <= digitLen <= 64 && DigitsBelow(digits[..digitLen], 58) && Held(digits[..digitLen]) == Horner(input, 256)
  {
    hide Held, Horner, Pow, NumberDigits;
    digits := new int[64](_ => 0);
    digitLen := 1;
    fits := true;
    StartAtZero(digits[..1], input[..0]);
    for i := 0 to |input|
      invariant 1 <= digitLen <= 64 && DigitsBelow(digits[..digitLen], 58)
      invariant Held(digits[..digitLen]) == Horner(input[..i], 256)
      modifies digits
    {
      assert input[..i + 1] == input[..i] + [input[i]];
      HornerSnoc(input[..i], input[i], 256);
      var carry := MulAdd(digits, digitLen, input[i]);
      digitLen, fits := Extend(digits, digitLen, carry);
      if !fits {
        Overflows(input, i + 1);
        return;
      }
    }
    assert input[..|input|] == input;
  }

  /** Leading zeros of the number, at the end of the digits, are dropped down to one digit. */
  method TrimDigits(digits: array<int>, len: nat) returns (digitLen: nat)
    requires 1 <= len <= digits.Length && DigitsBelow(digits[..len], 58)
    ensures 1 <= digitLen <= len && DigitsBelow(digits[..digitLen], 58)
    ensures Held(digits[..digitLen]) == Held(digits[..len])
    ensures digitLen > 1 ==> digits[digitLen - 1] != 0
  {
    hide Held;
    digitLen := len;
    while digitLen > 1 && digits[digitLen - 1] == 0
      invariant 1 <= digitLen <= len && DigitsBelow(digits[..digitLen], 58)
      invariant Held(digits[..digitLen]) == Held(digits[..len])
    {
      assert digits[..digitLen] == digits[..digitLen - 1] + [0];
      HeldSnoc(digits[..digitLen - 1], 0);
      digitLen := digitLen - 1;
    }
  }

  /** `encode_base58`. No carry ever exceeds a byte, the number held in the digit buffer is always
      that of the bytes read so far, and the text is written exactly when it fits. */
  method EncodeBase58(input: seq<byte>, out: array<byte>) returns (r: Option<nat>)
    modifies out
    ensures r.None? <==> input != [] && (|NumberDigits(input)| > 64 || |Base58Text(input)| > out.Length)
    ensures r.Some? ==> r.value == |Base58Text(input)| && out[..r.value] == Base58Text(input)
  {
    hide Held, Horner, Pow, LeadingZeros, NumberDigits;
    if input == [] {
      return Some(0);
    }
    var zeros := 0;
    while zeros < |input| && input[zeros] == 0
      invariant zeros <= |input| && forall i :: 0 <= i < zeros ==> input[i] == 0
    {
      zeros := zeros + 1;
    }
    LeadingZerosIs(input, zeros);
    var digits, len, fits := ToDigits(input);
    if !fits {
      return None;
    }
    var digitLen := TrimDigits(digits, len);
    TrimmedDigits(digits[..digitLen], input);
    if zeros + digitLen > out.Length {
      return None;
    }
    WriteText(zeros, digits, digitLen, out);
    return Some(zeros + digitLen);
  }

  lemma StartAtZero(ds: seq<int>, input: seq<byte>)
    requires ds == [0] && input == []
    ensures DigitsBelow(ds, 58) && Held(ds) == Horner(input, 256)
  {
    assert ds == [] + [0];
    HeldSnoc([], 0);
  }

  // ----- What the text says -----

  lemma PowOrder()
    ensures Pow(256, 32) <= Pow(58, 44)
  {
    assert Pow(256, 8) == 18446744073709551616 < 24986644000165537792 == Pow(58, 11);
    PowAdd(256, 8, 8);
    PowAdd(256, 16, 16);
    PowAdd(58, 11, 11);
    PowAdd(58, 22, 22);
    Squares(Pow(256, 8), Pow(58, 11));
    Squares(Pow(256, 16), Pow(58, 22));
  }

  lemma Squares(a: nat, b: nat)
    requires a <= b
    ensures a * a <= b * b
  {
    MulMonotone(a, b, a);
    MulMonotone(a, b, b);
  }

  lemma {:induction false} PowBase(a: nat, b: nat, n: nat)
    requires a <= b
    ensures Pow(a, n) <= Pow(b, n)
  {
    if n > 0 {
      PowBase(a, b, n - 1);
      MulMonotone(Pow(a, n - 1), Pow(b, n - 1), a);
      MulMonotone(a, b, Pow(b, n - 1));
    }
  }

  lemma Cancel(a: nat, b: nat, x: nat, y: nat)
    requires a * x <= b * y && 0 < y <= x
    ensures a <= b
  {
    if a > b {
      MulMonotone(y, x, a);
      MulMonotone(b + 1, a, y);
    }
  }

  /** Leading zero bytes cost one letter each, which is no more than they save. */
  lemma ShorterBound(z: nat)
    requires z <= 32
    ensures Pow(256, 32 - z) <= Pow(58, 44 - z)
  {
    PowOrder();
    PowAdd(256, 32 - z, z);
    PowAdd(58, 44 - z, z);
    PowBase(58, 256, z);
    PowPositive(58, z);
    Cancel(Pow(256, 32 - z), Pow(58, 44 - z), Pow(256, z), Pow(58, z));
  }

  /** A 32-byte key always fits the 44 letters that callers provide, so it always has a text. */
  lemma KeyFits(key: Bytes32)
    ensures |NumberDigits(key)| <= 64 && |Base58Text(key)| <= 44
  {
    hide Horner, Digits, LeadingZeros, Pow, Letters, Ones, Zeros;
    var z := LeadingZeros(key);
    var v := Horner(key, 256);
    HornerZeros(z, key[z..], 256);
    HornerBelow(key[z..], 256);
    ShorterBound(z);
    var ds := Digits(v, 58);
    HornerDigits(v, 58);
    HornerBelow(ds, 58);
    if ds != [] && |ds| > 44 - z {
      PowMonotone(58, 44 - z, |ds| - 1);
    }
  }

  /** One `1` per leading zero byte when some byte is not zero; one more when all are. */
  lemma LeadingOnes(input: seq<byte>)
    requires input != []
    ensures var z := LeadingZeros(input);
      && (forall i :: 0 <= i < z ==> Base58Text(input)[i] == Letter(0))
      && (z < |input| ==> |Base58Text(input)| > z && Base58Text(input)[z] != Letter(0))
      && (z == |input| ==> Base58Text(input) == Ones(z + 1))
  {
    hide Horner, Digits, LeadingZeros, Pow, Letters, Ones, Zeros;
    var z := LeadingZeros(input);
    var rest := input[z..];
    assert input == Zeros(z) + rest;
    HornerZeros(z, rest, 256);
    if z < |input| {
      HornerBelow(rest, 256);
      PowPositive(256, |rest| - 1);
      assert NumberDigits(input)[0] != 0;
      assert Base58Text(input)[z] == Letter(NumberDigits(input)[0]);
    } else {
      HornerEmpty(256);
      assert rest == [];
      assert Ones(z) + Letters([0]) == Ones(z + 1);
    }
  }

  /** The leading zeros and the number determine the bytes. */
  lemma BytesDetermined(a: seq<byte>, b: seq<byte>)
    requires LeadingZeros(a) == LeadingZeros(b) && Horner(a, 256) == Horner(b, 256)
    ensures a == b
  {
    hide Horner, Digits, LeadingZeros, Zeros, Pow;
    var z := LeadingZeros(a);
    HornerZeros(z, a[z..], 256);
    HornerZeros(z, b[z..], 256);
    HornerUnique(a[z..], 256);
    HornerUnique(b[z..], 256);
  }

  lemma LettersInjective(ds: seq<int>, es: seq<int>)
    requires DigitsBelow(ds, 58) && DigitsBelow(es, 58) && Letters(ds) == Letters(es)
    ensures ds == es
  {
    assert |ds| == |Letters(ds)| == |es|;
    forall i | 0 <= i < |ds| ensures ds[i] == es[i] {
      assert Letters(ds)[i] == Letters(es)[i];
    }
  }

  /** Different byte strings, of whatever lengths, have different texts. */
  lemma Injective(a: seq<byte>, b: seq<byte>)
    requires Base58Text(a) == Base58Text(b)
    ensures a == b
  {
    hide Horner, Digits, LeadingZeros, Zeros, Pow, Letters, Ones, NumberDigits;
    if a != [] && b != [] {
      var za, zb := LeadingZeros(a), LeadingZeros(b);
      LeadingOnes(a);
      LeadingOnes(b);
      SameZeros(a, b);
      SplitEqual(Ones(za), Ones(zb), Letters(NumberDigits(a)), Letters(NumberDigits(b)));
      LettersInjective(NumberDigits(a), NumberDigits(b));
      NumberOfDigits(a);
      NumberOfDigits(b);
      BytesDetermined(a, b);
    }
  }

  lemma NumberOfDigits(input: seq<byte>)
    ensures Horner(NumberDigits(input), 58) == Horner(input, 256)
  {
    HornerDigits(Horner(input, 256), 58);
    assert [0][..0] == [];
  }

  lemma SameZeros(a: seq<byte>, b: seq<byte>)
    requires a != [] && b != [] && Base58Text(a) == Base58Text(b)
    ensures LeadingZeros(a) == LeadingZeros(b)
  {
    hide Base58Text, LeadingZeros;
    LeadingOnes(a);
    LeadingOnes(b);
    var za, zb, text := LeadingZeros(a), LeadingZeros(b), Base58Text(a);
    assert forall i :: 0 <= i < za || 0 <= i < zb ==> text[i] == Letter(0);
  }

  // ----- The alphabet, and reading a text back -----

  /** ASCII digits and letters without `0`, `O`, `I` and `l`. */
  predicate InAlphabet(b: int) {
    (0x31 <= b <= 0x39 || 0x41 <= b <= 0x5a || 0x61 <= b <= 0x7a) && b != 0x49 && b != 0x4f && b != 0x6c
  }

  /** How many bytes of the alphabet are smaller. */
  function Rank(b: nat): nat {
    if b == 0 then 0 else Rank(b - 1) + if InAlphabet(b - 1) then 1 else 0
  }

  lemma {:induction false} RankSpan(a: nat, b: nat)
    requires a <= b && forall x :: a <= x < b ==> !InAlphabet(x)
    ensures Rank(a) == Rank(b)
    decreases b
  {
    if a < b {
      RankSpan(a, b - 1);
    }
  }

  lemma NextLetter(d: nat)
    requires d < 57
    ensures Letter(d) < Letter(d + 1) && forall x :: Letter(d) < x < Letter(d + 1) ==> !InAlphabet(x)
  {
  }

  lemma LetterInAlphabet(d: nat)
    requires d < 58
    ensures InAlphabet(Letter(d)) && (d == 0 ==> Letter(d) == 0x31)
  {
  }

  lemma RankNext(b: nat)
    ensures InAlphabet(b) ==> Rank(b + 1) == Rank(b) + 1
  {
  }

  /** Digit `d` is written as the byte of rank `d` in the alphabet, and with nothing else. */
  lemma {:induction false} LetterOfRank(d: nat)
    requires d < 58
    ensures InAlphabet(Letter(d)) && Rank(Letter(d)) == d
  {
    hide Letter, Rank;
    LetterInAlphabet(d);
    if d == 0 {
      RankSpan(0, 0x31);
      assert Rank(0) == 0 by { NoRank(); }
    } else {
      LetterOfRank(d - 1);
      NextLetter(d - 1);
      RankNext(Letter(d - 1));
      RankSpan(Letter(d - 1) + 1, Letter(d));
    }
  }

  lemma NoRank()
    ensures Rank(0) == 0
  {
  }

  lemma {:induction false} RankBelow(a: nat, b: nat)
    requires a < b && InAlphabet(a)
    ensures Rank(a) < Rank(b)
    decreases b
  {
    if a < b - 1 {
      RankBelow(a, b - 1);
    }
  }

  lemma LetterIff(b: byte)
    ensures InAlphabet(b) <==> exists d :: 0 <= d < 58 && Letter(d) == b
  {
    if InAlphabet(b) {
      RankBelow(b, 0x7b);
      LetterOfRank(57);
      assert Rank(0x7b) == 58;
      LetterOfRank(Rank(b));
      var c := Letter(Rank(b));
      if c < b {
        RankBelow(c, b);
      } else if b < c {
        RankBelow(b, c);
      }
    } else if d :| 0 <= d < 58 && Letter(d) == b {
      LetterOfRank(d);
    }
  }

  /** The sum of all digits by their places, the first place the highest. */
  function Weighted(ds: seq<int>, base: nat): int {
    if ds == [] then 0 else ds[0] * Pow(base, |ds| - 1) + Weighted(ds[1..], base)
  }

  lemma {:induction false} HornerIsWeighted(ds: seq<int>, base: nat)
    requires DigitsBelow(ds, base)
    ensures Weighted(ds, base) == Horner(ds, base)
  {
    hide Horner;
    if ds == [] {
      HornerEmpty(base);
    } else {
      HornerIsWeighted(ds[1..], base);
      HornerCons(ds[0], ds[1..], base);
      assert ds == [ds[0]] + ds[1..];
    }
  }

  function Ranks(text: seq<byte>): (r: seq<int>)
    ensures |r| == |text| && forall i :: 0 <= i < |text| ==> r[i] == Rank(text[i])
  {
    seq(|text|, i requires 0 <= i < |text| => Rank(text[i]))
  }

  /** Every letter is in the alphabet, and the letters read by rank, in base 58, are the number that
      the input is in base 256. */
  lemma ReadsAsNumber(input: seq<byte>)
    ensures forall i :: 0 <= i < |Base58Text(input)| ==> InAlphabet(Base58Text(input)[i])
    ensures Weighted(Ranks(Base58Text(input)), 58) == Weighted(input, 256)
  {
    hide Horner, Digits, LeadingZeros, Zeros, Pow, Letters, Ones, NumberDigits, Letter, InAlphabet, Rank, Weighted;
    var text := Base58Text(input);
    if input == [] {
      assert Ranks(text) == input;
      NoWeight();
    } else {
      var z, ds := LeadingZeros(input), NumberDigits(input);
      LetterOfRank(0);
      forall i | 0 <= i < |ds| ensures InAlphabet(Letter(ds[i])) && Rank(Letter(ds[i])) == ds[i] {
        LetterOfRank(ds[i]);
      }
      forall i | 0 <= i < |text| ensures InAlphabet(text[i]) && Rank(text[i]) == (Zeros(z) + ds)[i] {
        if i < z {
          assert text[i] == Ones(z)[i];
        } else {
          assert text[i] == Letters(ds)[i - z];
        }
      }
      assert Ranks(text) == Zeros(z) + ds;
      HornerZeros(z, ds, 58);
      HornerIsWeighted(Zeros(z) + ds, 58);
      NumberOfDigits(input);
      HornerIsWeighted(input, 256);
    }
  }

  lemma NoWeight()
    ensures Weighted([], 58) == Weighted([], 256)
  {
  }
}

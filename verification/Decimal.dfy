/** Exact decimal text: the strings that the signing crate prints and the API reads. */
module Decimal {
  import opened Base

  // ----- Digits -----

  predicate IsDigit(c: char) { '0' <= c <= '9' }

  predicate AllDigits(s: string) { forall i :: 0 <= i < |s| ==> IsDigit(s[i]) }

  function Digit(d: nat): (c: char)
    requires d < 10
    ensures IsDigit(c) && (c as int) - ('0' as int) == d
  {
    (d + '0' as int) as char
  }

  /** Decimal text without leading zeros. */
  function Dec(n: nat): (s: string)
    ensures s != "" && AllDigits(s)
  {
    if n < 10 then [Digit(n)] else Dec(n / 10) + [Digit(n % 10)]
  }

  /** The last `w` decimal digits, zero-padded. */
  function Padded(n: nat, w: nat): (s: string)
    ensures |s| == w && AllDigits(s)
  {
    if w == 0 then "" else Padded(n / 10, w - 1) + [Digit(n % 10)]
  }

  function ValueOf(s: string): nat
    requires AllDigits(s)
  {
    if s == "" then 0 else ValueOf(s[..|s| - 1]) * 10 + (s[|s| - 1] as int - '0' as int)
  }

  function Zeroes(n: nat): (s: string)
    ensures |s| == n && forall i :: 0 <= i < n ==> s[i] == '0'
  {
    if n == 0 then "" else Zeroes(n - 1) + ['0']
  }

  function TrimEndZeros(s: string): (r: string)
    ensures |r| <= |s| && s == r + Zeroes(|s| - |r|)
    ensures r != "" ==> r[|r| - 1] != '0'
  {
    if s != "" && s[|s| - 1] == '0' then
      var p := s[..|s| - 1];
      var r := TrimEndZeros(p);
      var z := Zeroes(|p| - |r|);
      assert s == (r + z) + ['0'] == r + (z + ['0']);
      r
    else s
  }

  function TrimStartZeros(s: string): (r: string)
    ensures |r| <= |s| && r == s[|s| - |r|..]
    ensures r != "" ==> r[0] != '0'
  {
    if s != "" && s[0] == '0' then TrimStartZeros(s[1..]) else s
  }

  /** `Writer::amount`: the exact quotient `raw / 10^decimals`, without trailing zeros. */
  function AmountText(raw: nat, decimals: nat): string {
    PowPositive(10, decimals);
    var scale := Pow(10, decimals);
    Dec(raw / scale)
    + (if raw % scale == 0 then "" else "." + TrimEndZeros(Padded(raw % scale, decimals)))
  }

  // ----- The API's reader -----

  datatype ApiError = NotPositive | NotDecimal | TooManyPlaces | TooLarge

  /** `split_once('.')`, with an empty fraction when there is no dot. */
  function SplitDot(s: string): (r: (string, string))
    ensures '.' !in r.0
    ensures (s == r.0 && r.1 == "") || s == r.0 + "." + r.1
  {
    if s == "" then ("", "")
    else if s[0] == '.' then
      assert s == "" + "." + s[1..];
      ("", s[1..])
    else
      var (w, f) := SplitDot(s[1..]);
      assert s == [s[0]] + s[1..];
      assert [s[0]] + (w + "." + f) == [s[0]] + w + "." + f;
      ([s[0]] + w, f)
  }

  /** Unicode `White_Space`. */
  predicate IsSpace(c: char) {
    var u := c as int;
    9 <= u <= 13 || u == 0x20 || u == 0x85 || u == 0xA0 || u == 0x1680 || 0x2000 <= u <= 0x200A
    || u == 0x2028 || u == 0x2029 || u == 0x202F || u == 0x205F || u == 0x3000
  }

  function TrimStart(s: string): (r: string)
    ensures r != "" ==> !IsSpace(r[0])
    ensures |r| <= |s| && r == s[|s| - |r|..]
    ensures s != "" && !IsSpace(s[0]) ==> r == s
  {
    hide IsSpace;
    if s != "" && IsSpace(s[0]) then TrimStart(s[1..]) else s
  }

  function TrimEnd(s: string): (r: string)
    ensures r != "" ==> !IsSpace(r[|r| - 1])
    ensures |r| <= |s| && r == s[..|r|]
    ensures s != "" && !IsSpace(s[|s| - 1]) ==> r == s
  {
    hide IsSpace;
    if s != "" && IsSpace(s[|s| - 1]) then TrimEnd(s[..|s| - 1]) else s
  }

  /** `str::trim`. A trimmed string starts and ends with no white space, and is left alone. */
  function Trim(s: string): (r: string)
    ensures r != "" ==> !IsSpace(r[0]) && !IsSpace(r[|r| - 1])
    ensures s == "" || (!IsSpace(s[0]) && !IsSpace(s[|s| - 1])) ==> r == s
  {
    hide IsSpace, TrimStart, TrimEnd;
    var u := TrimStart(s);
    var r := TrimEnd(u);
    assert r != "" ==> u != "" && r[0] == u[0];
    r
  }

  function NormalizeDecimal(s: string): Result<string, ApiError> {
    var t := Trim(s);
    var _ :- Need(t != "" && t[0] != '-' && t[0] != '+', NotPositive);
    var (whole, frac) := SplitDot(t);
    var _ :- Need(whole != "" && AllDigits(whole) && AllDigits(frac), NotDecimal);
    var w := if TrimStartZeros(whole) == "" then "0" else TrimStartZeros(whole);
    var f := TrimEndZeros(frac);
    Ok(if f == "" then w else w + "." + f)
  }

  const U128_LIMIT: nat := 0x1_0000_0000_0000_0000_0000_0000_0000_0000

  /** `10u128.pow(decimals)` would overflow beyond 38 places; callers stop at 36. */
  function DecimalToRaw(s: string, decimals: nat): Result<u128, ApiError>
    requires decimals <= 38
  {
    var (whole, frac) := SplitDot(s);
    var _ :- Need(whole != "" && AllDigits(whole), NotDecimal);
    var _ :- Need(|frac| <= decimals && AllDigits(frac), TooManyPlaces);
    var wholeRaw := ValueOf(whole) * Pow(10, decimals);
    var _ :- Need(ValueOf(whole) < U128_LIMIT && wholeRaw < U128_LIMIT, TooLarge);
    var fracRaw := ValueOf(frac + Zeroes(decimals - |frac|));
    var _ :- Need(fracRaw < U128_LIMIT && wholeRaw + fracRaw < U128_LIMIT, TooLarge);
    Ok(wholeRaw + fracRaw)
  }

  // ----- Digits and values -----

  lemma ValueSnoc(s: string, c: char)
    requires AllDigits(s) && IsDigit(c)
    ensures AllDigits(s + [c]) && ValueOf(s + [c]) == ValueOf(s) * 10 + (c as int - '0' as int)
  {
    assert (s + [c])[..|s|] == s;
  }

  lemma {:induction false} DecValue(n: nat)
    ensures ValueOf(Dec(n)) == n
    ensures n > 0 ==> Dec(n)[0] != '0'
  {
    if n < 10 {
      assert Dec(n)[..0] == "";
    } else {
      DecValue(n / 10);
      ValueSnoc(Dec(n / 10), Digit(n % 10));
    }
  }

  /** Decimal text is the only digit string of its value without a leading zero. */
  lemma {:induction false} DecUnique(s: string)
    requires s != "" && AllDigits(s) && (|s| > 1 ==> s[0] != '0')
    ensures Dec(ValueOf(s)) == s
  {
    var p, d := s[..|s| - 1], s[|s| - 1];
    assert s == p + [d];
    if p != "" {
      DecUnique(p);
      ValuePositive(p);
      assert ValueOf(s) / 10 == ValueOf(p);
    } else {
      assert ValueOf(p) == 0;
    }
  }

  lemma {:induction false} ValuePositive(s: string)
    requires s != "" && AllDigits(s) && s[0] != '0'
    ensures ValueOf(s) > 0
  {
    var p := s[..|s| - 1];
    if p == "" {
      assert ValueOf(p) == 0;
    } else {
      ValuePositive(p);
    }
  }

  lemma NoValue()
    ensures ValueOf("") == 0
  {
  }

  lemma {:induction false} PaddedValue(n: nat, w: nat)
    ensures n < Pow(10, w) ==> ValueOf(Padded(n, w)) == n
  {
    hide ValueOf;
    if w > 0 {
      assert Pow(10, w) == 10 * Pow(10, w - 1);
      PaddedValue(n / 10, w - 1);
      ValueSnoc(Padded(n / 10, w - 1), Digit(n % 10));
    } else {
      assert Padded(n, 0) == "" && Pow(10, 0) == 1;
      NoValue();
    }
  }

  lemma {:induction false} ValuePadded(s: string)
    requires AllDigits(s)
    ensures ValueOf(s) < Pow(10, |s|) && Padded(ValueOf(s), |s|) == s
  {
    if s != "" {
      ValuePadded(s[..|s| - 1]);
      assert s == s[..|s| - 1] + [s[|s| - 1]];
    }
  }

  lemma {:induction false} SplitDotAt(w: string, f: string)
    requires '.' !in w
    ensures SplitDot(w + "." + f) == (w, f)
    ensures SplitDot(w) == (w, "")
  {
    if w == "" {
      assert "" + "." + f == "." + f;
      assert ("." + f)[1..] == f;
    } else {
      SplitDotAt(w[1..], f);
      assert (w + "." + f)[1..] == w[1..] + "." + f;
      assert [w[0]] + w[1..] == w;
    }
  }

  lemma {:induction false} TrimPadded(f: string, k: nat)
    requires f != "" ==> f[|f| - 1] != '0'
    ensures TrimEndZeros(f + Zeroes(k)) == f
  {
    hide TrimEndZeros, Zeroes;
    if k == 0 {
      assert f + Zeroes(0) == f;
      TrimKept(f);
    } else {
      TrimPadded(f, k - 1);
      ZeroesSnoc(k - 1);
      assert f + Zeroes(k) == (f + Zeroes(k - 1)) + ['0'];
      TrimDropped(f + Zeroes(k - 1));
    }
  }

  lemma TrimKept(s: string)
    requires s != "" ==> s[|s| - 1] != '0'
    ensures TrimEndZeros(s) == s
  {
  }

  lemma TrimDropped(s: string)
    ensures TrimEndZeros(s + ['0']) == TrimEndZeros(s)
  {
    assert (s + ['0'])[..|s|] == s;
  }

  lemma ZeroesSnoc(k: nat)
    ensures Zeroes(k + 1) == Zeroes(k) + ['0']
  {
  }

  lemma NoDot(s: string)
    requires AllDigits(s)
    ensures '.' !in s
  {
  }

  lemma {:induction false} ZerosValue(n: nat)
    ensures AllDigits(Zeroes(n)) && ValueOf(Zeroes(n)) == 0
  {
    if n > 0 {
      ZerosValue(n - 1);
      ValueSnoc(Zeroes(n - 1), '0');
    }
  }

  /** A printed amount is a quotient and the padded remainder with its trailing zeros dropped. */
  lemma TextParts(raw: nat, decimals: nat) returns (w: string, f: string)
    ensures AmountText(raw, decimals) == (if f == "" then w else w + "." + f)
    ensures w != "" && '.' !in w && AllDigits(w) && AllDigits(f)
    ensures |f| <= decimals && AllDigits(f + Zeroes(decimals - |f|))
    ensures raw == ValueOf(w) * Pow(10, decimals) + ValueOf(f + Zeroes(decimals - |f|))
  {
    hide Dec, ValueOf, Padded, TrimEndZeros, Zeroes, Pow;
    PowPositive(10, decimals);
    var scale := Pow(10, decimals);
    var part := raw % scale;
    w := Dec(raw / scale);
    DecValue(raw / scale);
    NoDot(w);
    assert raw == (raw / scale) * scale + part;
    var digits := Padded(part, decimals);
    PaddedValue(part, decimals);
    if part == 0 {
      f := "";
      assert w + "" == w;
      ZerosValue(decimals);
      assert "" + Zeroes(decimals) == Zeroes(decimals);
    } else {
      f := TrimEndZeros(digits);
      assert forall i :: 0 <= i < |f| ==> f[i] == digits[i];
      assert digits == f + Zeroes(decimals - |f|);
      if f == "" {
        assert digits == Zeroes(decimals);
        ZerosValue(decimals);
      }
      assert w + ("." + f) == w + "." + f;
    }
  }

  // ----- Main results -----

  /** Reading a printed amount gives the amount back. */
  lemma PrintThenRead(raw: u128, decimals: nat)
    requires decimals <= 38
    ensures DecimalToRaw(AmountText(raw, decimals), decimals) == Ok(raw)
  {
    hide AmountText, SplitDot, ValueOf, Zeroes, Pow;
    var w, f := TextParts(raw, decimals);
    SplitDotAt(w, f);
    PowPositive(10, decimals);
    MulGrows(Pow(10, decimals), ValueOf(w));
  }

  /** The shape of every normalised amount: no superfluous zero on either side. */
  ghost predicate Normal(n: string, w: string, f: string) {
    && w != "" && AllDigits(w) && AllDigits(f)
    && (|w| > 1 ==> w[0] != '0')
    && (f != "" ==> f[|f| - 1] != '0')
    && n == (if f == "" then w else w + "." + f)
  }

  lemma SuffixDigits(s: string, n: nat)
    requires AllDigits(s) && n <= |s|
    ensures AllDigits(s[n..])
  {
  }

  lemma NormalShape(s: string) returns (w: string, f: string)
    requires NormalizeDecimal(s).Ok?
    ensures Normal(NormalizeDecimal(s).value, w, f)
  {
    hide Trim, SplitDot, TrimStartZeros, TrimEndZeros;
    var (whole, frac) := SplitDot(Trim(s));
    w := if TrimStartZeros(whole) == "" then "0" else TrimStartZeros(whole);
    f := TrimEndZeros(frac);
    SuffixDigits(whole, |whole| - |TrimStartZeros(whole)|);
    assert forall i :: 0 <= i < |f| ==> f[i] == frac[i];
  }

  lemma NormalSplit(n: string, w: string, f: string)
    requires Normal(n, w, f)
    ensures SplitDot(n) == (w, f)
  {
    NoDot(w);
    SplitDotAt(w, f);
  }

  /** A fraction filled up with zeros: it is zero only if there was none. */
  lemma FilledFraction(f: string, places: nat)
    requires AllDigits(f) && |f| <= places && (f != "" ==> f[|f| - 1] != '0')
    ensures var padded := f + Zeroes(places - |f|);
      && AllDigits(padded) && ValueOf(padded) < Pow(10, places) && (ValueOf(padded) == 0 <==> f == "")
      && TrimEndZeros(Padded(ValueOf(padded), places)) == f
  {
    hide ValueOf, Zeroes, Pow, Padded, TrimEndZeros;
    ZerosValue(places - |f|);
    var padded := f + Zeroes(places - |f|);
    ValuePadded(padded);
    TrimPadded(f, places - |f|);
    if f == "" {
      Nothing(Zeroes(places));
    } else {
      ZerosPadded(places);
      assert padded[|f| - 1] != Zeroes(places)[|f| - 1];
    }
  }

  function Total(q: nat, scale: nat, r: nat): nat { q * scale + r }

  /** A normal form with few enough places is the printed amount of its digits. */
  lemma NormalPrinted(n: string, w: string, f: string, decimals: nat)
    requires Normal(n, w, f) && |f| <= decimals
    ensures AllDigits(f + Zeroes(decimals - |f|))
    ensures AmountText(Total(ValueOf(w), Pow(10, decimals), ValueOf(f + Zeroes(decimals - |f|))), decimals) == n
  {
    hide ValueOf, Zeroes, Pow, Dec, Padded, TrimEndZeros, AmountText, AllDigits, Total;
    FilledFraction(f, decimals);
    DecUnique(w);
    PrintedParts(w, ValueOf(w), f, ValueOf(f + Zeroes(decimals - |f|)), decimals);
  }

  lemma PrintedParts(w: string, q: nat, f: string, r: nat, places: nat)
    requires Dec(q) == w && r < Pow(10, places) && TrimEndZeros(Padded(r, places)) == f && (r == 0 <==> f == "")
    ensures AmountText(Total(q, Pow(10, places), r), places) == if f == "" then w else w + "." + f
  {
    hide Pow, Dec, Padded, TrimEndZeros, AmountText;
    AmountOfParts(q, r, places);
    Nothing(w);
    Assoc(w, ".", f);
  }

  /** Printing what was read from a normalised amount gives that very text. */
  lemma ReadThenPrint(s: string, n: string, decimals: nat, raw: u128)
    requires decimals <= 38
    requires NormalizeDecimal(s) == Ok(n) && DecimalToRaw(n, decimals) == Ok(raw)
    ensures AmountText(raw, decimals) == n
  {
    hide NormalizeDecimal, SplitDot, ValueOf, Zeroes, Pow, AmountText;
    var w, f := NormalShape(s);
    NormalSplit(n, w, f);
    NormalPrinted(n, w, f, decimals);
  }

  lemma {:induction false} ZerosPadded(w: nat)
    ensures Padded(0, w) == Zeroes(w)
  {
    if w > 0 {
      ZerosPadded(w - 1);
    }
  }

  lemma TrimStartNormal(w: string)
    requires w != "" && (|w| > 1 ==> w[0] != '0')
    ensures w == if TrimStartZeros(w) == "" then "0" else TrimStartZeros(w)
  {
    if w[0] == '0' {
      assert w == "0" && w[1..] == "";
    }
  }

  lemma DigitNotSpace(c: char)
    requires IsDigit(c)
    ensures !IsSpace(c)
  {
  }

  lemma NormalIsFixed(n: string, w: string, f: string)
    requires Normal(n, w, f)
    ensures NormalizeDecimal(n) == Ok(n)
  {
    hide SplitDot, Trim, TrimEndZeros, TrimStartZeros, NormalizeDecimal, AllDigits;
    NormalSplit(n, w, f);
    NormalEnds(n, w, f);
    TrimKept(f);
    TrimStartNormal(w);
    NormalizeUnfold(n, w, f);
  }

  lemma NormalEnds(n: string, w: string, f: string)
    requires Normal(n, w, f)
    ensures IsDigit(n[0]) && Trim(n) == n
  {
    hide Trim, IsSpace;
    assert n[0] == w[0];
    assert IsDigit(n[|n| - 1]) by {
      if f == "" { assert n[|n| - 1] == w[|w| - 1]; } else { assert n[|n| - 1] == f[|f| - 1]; }
    }
    DigitNotSpace(n[0]);
    DigitNotSpace(n[|n| - 1]);
  }

  lemma NormalizeUnfold(n: string, w: string, f: string)
    requires Trim(n) == n && n != "" && IsDigit(n[0]) && SplitDot(n) == (w, f)
    requires w != "" && AllDigits(w) && AllDigits(f)
    requires w == (if TrimStartZeros(w) == "" then "0" else TrimStartZeros(w)) && TrimEndZeros(f) == f
    ensures NormalizeDecimal(n) == Ok(if f == "" then w else w + "." + f)
  {
    hide SplitDot, Trim, TrimEndZeros, TrimStartZeros, AllDigits;
  }

  lemma NormalizeIdempotent(s: string, n: string)
    requires NormalizeDecimal(s) == Ok(n)
    ensures NormalizeDecimal(n) == Ok(n)
  {
    var w, f := NormalShape(s);
    NormalIsFixed(n, w, f);
  }

  /** Equal texts stand for equal rationals, whatever the two scales. */
  lemma AmountTextExact(raw: nat, decimals: nat, raw': nat, decimals': nat)
    requires AmountText(raw, decimals) == AmountText(raw', decimals')
    ensures raw * Pow(10, decimals') == raw' * Pow(10, decimals)
  {
    if decimals <= decimals' {
      SameTextSameAmount(raw, decimals, raw', decimals');
    } else {
      SameTextSameAmount(raw', decimals', raw, decimals);
    }
  }

  lemma {:induction false} ValueZeros(s: string, k: nat)
    requires AllDigits(s)
    ensures AllDigits(s + Zeroes(k)) && ValueOf(s + Zeroes(k)) == ValueOf(s) * Pow(10, k)
  {
    hide ValueOf;
    if k == 0 {
      assert s + Zeroes(0) == s;
    } else {
      ValueZeros(s, k - 1);
      assert s + Zeroes(k) == (s + Zeroes(k - 1)) + ['0'];
      ValueSnoc(s + Zeroes(k - 1), '0');
    }
  }

  lemma SameTextSameAmount(raw: nat, decimals: nat, raw': nat, decimals': nat)
    requires AmountText(raw, decimals) == AmountText(raw', decimals') && decimals <= decimals'
    ensures raw * Pow(10, decimals') == raw' * Pow(10, decimals)
  {
    hide AmountText, ValueOf, Zeroes, Pow, SplitDot;
    var w, f := TextParts(raw, decimals);
    var w', f' := TextParts(raw', decimals');
    SplitDotAt(w, f);
    SplitDotAt(w', f');
    assert w == w' && f == f';
    var gap := decimals' - decimals;
    var part := f + Zeroes(decimals - |f|);
    assert f + Zeroes(decimals' - |f|) == part + Zeroes(gap);
    ValueZeros(part, gap);
    PowAdd(10, decimals, gap);
    Rescale(ValueOf(w), ValueOf(part), Pow(10, decimals), Pow(10, gap));
  }

  lemma Rescale(v: nat, x: nat, p: nat, g: nat)
    ensures (v * p + x) * (p * g) == (v * (p * g) + x * g) * p
  {
    assert (v * p + x) * (p * g) == v * p * (p * g) + x * (p * g);
    assert (v * (p * g) + x * g) * p == v * (p * g) * p + x * g * p;
    assert v * p * (p * g) == v * (p * g) * p;
  }

  lemma ScaleOnce(raw: nat, decimals: nat)
    ensures AmountText(raw * 10, decimals + 1) == AmountText(raw, decimals)
  {
    hide Dec, Padded, TrimEndZeros, Pow;
    PowPositive(10, decimals);
    var p := Pow(10, decimals);
    var q, r := raw / p, raw % p;
    DivMod(raw, p);
    assert Pow(10, decimals + 1) == 10 * p by { PowNext(decimals); }
    TenTimes(raw, q, p, r);
    DivModUnique(q, r * 10, 10 * p);
    PaddedTen(r, decimals);
  }

  lemma TenTimes(n: nat, q: nat, p: nat, r: nat)
    requires n == q * p + r
    ensures n * 10 == q * (10 * p) + r * 10
  {
  }

  lemma PowNext(n: nat)
    ensures Pow(10, n + 1) == 10 * Pow(10, n)
  {
  }

  lemma PaddedTen(n: nat, w: nat)
    ensures TrimEndZeros(Padded(n * 10, w + 1)) == TrimEndZeros(Padded(n, w))
  {
    var s := Padded(n * 10, w + 1);
    assert s == Padded(n, w) + [Digit(0)];
    assert s[..w] == Padded(n, w);
  }

  lemma {:induction false} ScaleUp(raw: nat, decimals: nat, gap: nat)
    ensures AmountText(raw * Pow(10, gap), decimals + gap) == AmountText(raw, decimals)
  {
    hide AmountText;
    if gap > 0 {
      ScaleUp(raw, decimals, gap - 1);
      ScaleOnce(raw * Pow(10, gap - 1), decimals + (gap - 1));
      assert raw * Pow(10, gap - 1) * 10 == raw * Pow(10, gap);
    }
  }

  lemma CancelScale(a: nat, b: nat, m: nat)
    requires m > 0 && a * m == b * m
    ensures a == b
  {
    if a < b {
      MulMonotone(a + 1, b, m);
    } else if b < a {
      MulMonotone(b + 1, a, m);
    }
  }

  lemma SameAmountSameText(raw: nat, decimals: nat, raw': nat, decimals': nat)
    requires raw * Pow(10, decimals') == raw' * Pow(10, decimals) && decimals <= decimals'
    ensures AmountText(raw, decimals) == AmountText(raw', decimals')
  {
    hide AmountText, Pow;
    var gap := decimals' - decimals;
    var p, g := Pow(10, decimals), Pow(10, gap);
    PowAdd(10, decimals, gap);
    PowPositive(10, decimals);
    assert raw * (p * g) == raw * g * p;
    CancelScale(raw * g, raw', p);
    ScaleUp(raw, decimals, gap);
  }

  /** Two amounts print alike exactly when they are the same rational number. */
  lemma AmountTextIff(raw: nat, decimals: nat, raw': nat, decimals': nat)
    ensures AmountText(raw, decimals) == AmountText(raw', decimals')
            <==> raw * Pow(10, decimals') == raw' * Pow(10, decimals)
  {
    hide AmountText, Pow;
    if AmountText(raw, decimals) == AmountText(raw', decimals') {
      AmountTextExact(raw, decimals, raw', decimals');
    } else if raw * Pow(10, decimals') == raw' * Pow(10, decimals) {
      if decimals <= decimals' {
        SameAmountSameText(raw, decimals, raw', decimals');
      } else {
        SameAmountSameText(raw', decimals', raw, decimals);
      }
    }
  }

  // ----- What texts stand for -----

  /** The sum of all digits by their places, the first place the highest. */
  function Placed(s: string): nat
    requires AllDigits(s)
  {
    if s == "" then 0 else
    var d: nat := s[0] as int - '0' as int;
    d * Pow(10, |s| - 1) + Placed(s[1..])
  }

  lemma ShiftPlace(d: nat, p: nat, v: nat, e: nat)
    ensures (d * p + v) * 10 + e == d * (10 * p) + (v * 10 + e)
  {
  }

  lemma {:induction false} PlacedSnoc(s: string, c: char)
    requires AllDigits(s) && IsDigit(c)
    ensures AllDigits(s + [c]) && Placed(s + [c]) == Placed(s) * 10 + (c as int - '0' as int)
  {
    var t := s + [c];
    if s == "" {
      assert t[1..] == "" && Pow(10, 0) == 1;
    } else {
      PlacedSnoc(s[1..], c);
      assert t[1..] == s[1..] + [c];
      ShiftPlace(s[0] as int - '0' as int, Pow(10, |s| - 1), Placed(s[1..]), c as int - '0' as int);
    }
  }

  lemma {:induction false} ValueIsPlaced(s: string)
    requires AllDigits(s)
    ensures ValueOf(s) == Placed(s)
  {
    if s != "" {
      ValueIsPlaced(s[..|s| - 1]);
      PlacedSnoc(s[..|s| - 1], s[|s| - 1]);
      assert s == s[..|s| - 1] + [s[|s| - 1]];
    }
  }

  predicate AllSpace(s: string) { forall i :: 0 <= i < |s| ==> IsSpace(s[i]) }

  lemma SpaceJoined(a: string, b: string)
    requires AllSpace(a) && AllSpace(b)
    ensures AllSpace(a + b)
  {
    hide IsSpace;
  }

  lemma {:induction false} TrimStartExact(s: string) returns (a: string)
    ensures AllSpace(a) && s == a + TrimStart(s)
  {
    hide IsSpace;
    if s != "" && IsSpace(s[0]) {
      var rest := TrimStartExact(s[1..]);
      var space := [s[0]];
      a := space + rest;
      SpaceJoined(space, rest);
      assert s == space + s[1..];
      Assoc(space, rest, TrimStart(s[1..]));
    } else {
      a := "";
      Nothing(s);
    }
  }

  lemma {:induction false} TrimEndExact(s: string) returns (b: string)
    ensures AllSpace(b) && s == TrimEnd(s) + b
  {
    hide IsSpace;
    if s != "" && IsSpace(s[|s| - 1]) {
      var rest := TrimEndExact(s[..|s| - 1]);
      var space := [s[|s| - 1]];
      b := rest + space;
      SpaceJoined(rest, space);
      assert s == s[..|s| - 1] + space;
      Assoc(TrimEnd(s[..|s| - 1]), rest, space);
    } else {
      b := "";
      Nothing(s);
    }
  }

  /** Trimming takes white space off both ends, all of it and nothing else. */
  lemma TrimExact(s: string) returns (a: string, b: string)
    ensures AllSpace(a) && AllSpace(b) && s == a + Trim(s) + b
    ensures Trim(s) != "" ==> !IsSpace(Trim(s)[0]) && !IsSpace(Trim(s)[|Trim(s)| - 1])
  {
    hide IsSpace, TrimStart, TrimEnd, AllSpace;
    a := TrimStartExact(s);
    b := TrimEndExact(TrimStart(s));
    Assoc(a, Trim(s), b);
  }

  lemma BlankIff(s: string)
    ensures Trim(s) == "" <==> AllSpace(s)
  {
    hide Trim, IsSpace;
    var a, b := TrimExact(s);
    if Trim(s) == "" {
      Nothing(a);
    } else {
      assert s[|a|] == Trim(s)[0];
    }
  }

  /** A number as it may be written: digits, and perhaps a dot with digits behind it or none. */
  predicate Written(t: string, whole: string, frac: string) {
    whole != "" && AllDigits(whole) && AllDigits(frac) && (t == whole + "." + frac || (t == whole && frac == ""))
  }

  lemma WrittenSplit(t: string, whole: string, frac: string)
    requires Written(t, whole, frac)
    ensures SplitDot(t) == (whole, frac) && t != "" && IsDigit(t[0])
  {
    NoDot(whole);
    SplitDotAt(whole, frac);
  }

  lemma SplitWritten(t: string)
    requires var (whole, frac) := SplitDot(t); whole != "" && AllDigits(whole) && AllDigits(frac)
    ensures Written(t, SplitDot(t).0, SplitDot(t).1)
  {
    hide SplitDot;
  }

  /** Exactly written numbers normalise; what is empty or signed is refused as not positive. */
  lemma NormalizeIff(s: string)
    ensures NormalizeDecimal(s).Ok? <==> exists whole, frac :: Written(Trim(s), whole, frac)
    ensures NormalizeDecimal(s) == Err(NotPositive) <==> Trim(s) == "" || Trim(s)[0] == '-' || Trim(s)[0] == '+'
    ensures NormalizeDecimal(s).Err? ==> NormalizeDecimal(s).error == NotPositive || NormalizeDecimal(s).error == NotDecimal
  {
    hide Trim, SplitDot, TrimStartZeros, TrimEndZeros, AllDigits, Written;
    if NormalizeDecimal(s).Ok? {
      SplitWritten(Trim(s));
    }
    if whole, frac :| Written(Trim(s), whole, frac) {
      WrittenSplit(Trim(s), whole, frac);
      WrittenParts(Trim(s), whole, frac);
    }
  }

  lemma WrittenParts(t: string, whole: string, frac: string)
    requires Written(t, whole, frac)
    ensures whole != "" && AllDigits(whole) && AllDigits(frac)
  {
  }

  lemma {:induction false} StartValue(s: string)
    requires AllDigits(s)
    ensures AllDigits(TrimStartZeros(s)) && Placed(TrimStartZeros(s)) == Placed(s)
  {
    if s != "" && s[0] == '0' {
      StartValue(s[1..]);
    }
  }

  lemma {:induction false} PlacedConcat(s: string, t: string)
    requires AllDigits(s) && AllDigits(t)
    ensures AllDigits(s + t) && Placed(s + t) == Placed(s) * Pow(10, |t|) + Placed(t)
  {
    if t == "" {
      Nothing(s);
      assert Pow(10, 0) == 1;
    } else {
      var n := |t| - 1;
      PlacedConcat(s, t[..n]);
      PlacedSnoc(s + t[..n], t[n]);
      PlacedSnoc(t[..n], t[n]);
      assert t == t[..n] + [t[n]] && s + t == s + t[..n] + [t[n]];
      ShiftPlace(Placed(s), Pow(10, n), Placed(t[..n]), t[n] as int - '0' as int);
    }
  }

  /** The whole part loses its leading zeros, and zero keeps one digit. */
  lemma WholePrinted(whole: string)
    requires whole != "" && AllDigits(whole)
    ensures Dec(Placed(whole)) == if TrimStartZeros(whole) == "" then "0" else TrimStartZeros(whole)
  {
    hide Placed, ValueOf, TrimStartZeros;
    var w := TrimStartZeros(whole);
    StartValue(whole);
    if w == "" {
      assert Placed("") == 0 by { NothingPlaced(); }
    } else {
      DecUnique(w);
      ValueIsPlaced(w);
    }
  }

  lemma NothingPlaced()
    ensures Placed("") == 0
  {
  }

  /** The fraction loses its trailing zeros, and with them everything if it is zero. */
  lemma FractionPrinted(frac: string)
    requires AllDigits(frac)
    ensures Placed(frac) < Pow(10, |frac|) && Padded(Placed(frac), |frac|) == frac
    ensures Placed(frac) == 0 <==> TrimEndZeros(frac) == ""
  {
    hide Placed, ValueOf, TrimEndZeros, Padded;
    ValueIsPlaced(frac);
    ValuePadded(frac);
    var f := TrimEndZeros(frac);
    if f == "" {
      assert frac == Zeroes(|frac|);
      ZerosValue(|frac|);
    } else {
      ZerosPadded(|frac|);
      assert f[|f| - 1] == frac[|f| - 1] != Zeroes(|frac|)[|f| - 1];
    }
  }

  lemma AmountOfParts(q: nat, r: nat, places: nat)
    requires r < Pow(10, places)
    ensures AmountText(q * Pow(10, places) + r, places)
            == Dec(q) + if r == 0 then "" else "." + TrimEndZeros(Padded(r, places))
  {
    hide Dec, Padded, TrimEndZeros, Pow;
    DivModUnique(q, r, Pow(10, places));
  }

  lemma NormalizeWritten(s: string, whole: string, frac: string)
    requires Written(Trim(s), whole, frac)
    ensures var w, f := if TrimStartZeros(whole) == "" then "0" else TrimStartZeros(whole), TrimEndZeros(frac);
      NormalizeDecimal(s) == Ok(if f == "" then w else w + "." + f)
  {
    hide Trim, SplitDot, TrimStartZeros, TrimEndZeros, Written;
    WrittenSplit(Trim(s), whole, frac);
    WrittenParts(Trim(s), whole, frac);
  }

  /** The normal form of a written number is the printed amount of its digits: `007.250` is 7250 at three
      places, and becomes `7.25`. */
  lemma NormalizePrints(s: string, whole: string, frac: string)
    requires Written(Trim(s), whole, frac)
    ensures AllDigits(whole + frac) && NormalizeDecimal(s) == Ok(AmountText(Placed(whole + frac), |frac|))
  {
    hide Trim, NormalizeDecimal, AmountText, TrimStartZeros, TrimEndZeros, Placed, Pow, Dec, Padded, Written;
    NormalizeWritten(s, whole, frac);
    WrittenParts(Trim(s), whole, frac);
    PlacedConcat(whole, frac);
    WholePrinted(whole);
    FractionPrinted(frac);
    AmountOfParts(Placed(whole), Placed(frac), |frac|);
    var w, f := Dec(Placed(whole)), TrimEndZeros(frac);
    Nothing(w);
    Assoc(w, ".", f);
  }

  /** A written number is read as raw units exactly when they are the same rational, as far as a `u128`
      goes; otherwise it has too many places or is too large. */
  lemma ReadsExactly(s: string, whole: string, frac: string, decimals: nat, raw: u128)
    requires Written(Trim(s), whole, frac) && decimals <= 38
    ensures NormalizeDecimal(s).Ok? && AllDigits(whole + frac)
    ensures DecimalToRaw(NormalizeDecimal(s).value, decimals) == Ok(raw)
            <==> raw * Pow(10, |frac|) == Placed(whole + frac) * Pow(10, decimals)
  {
    hide NormalizeDecimal, DecimalToRaw, AmountText, Placed, Pow, Trim, Written;
    NormalizePrints(s, whole, frac);
    WrittenParts(Trim(s), whole, frac);
    PlacedConcat(whole, frac);
    var n := NormalizeDecimal(s).value;
    AmountTextIff(raw, decimals, Placed(whole + frac), |frac|);
    PrintThenRead(raw, decimals);
    if DecimalToRaw(n, decimals) == Ok(raw) {
      ReadThenPrint(s, n, decimals, raw);
    }
  }

  /** It is refused for its places exactly if no amount of raw units is that rational, and as too large
      exactly if one is but does not fit. */
  lemma ReadsRefused(s: string, whole: string, frac: string, decimals: nat)
    requires Written(Trim(s), whole, frac) && decimals <= 38
    ensures NormalizeDecimal(s).Ok? && AllDigits(whole + frac)
    ensures var r := DecimalToRaw(NormalizeDecimal(s).value, decimals);
      && (r == Err(TooManyPlaces)
          <==> forall raw: nat :: raw * Pow(10, |frac|) != Placed(whole + frac) * Pow(10, decimals))
      && (r == Err(TooLarge)
          <==> exists raw: nat :: raw >= U128_LIMIT && raw * Pow(10, |frac|) == Placed(whole + frac) * Pow(10, decimals))
  {
    hide NormalizeDecimal, AmountText, Placed, Pow, Trim, Written, SplitDot, ValueOf, Zeroes, Normal;
    NormalizePrints(s, whole, frac);
    WrittenParts(Trim(s), whole, frac);
    PlacedConcat(whole, frac);
    var n, v, p := NormalizeDecimal(s).value, Placed(whole + frac), |frac|;
    var w, f := NormalShape(s);
    NormalSplit(n, w, f);
    NormalParts(n, w, f);
    if |f| > decimals {
      forall raw: nat ensures raw * Pow(10, p) != v * Pow(10, decimals) {
        AmountTextIff(raw, decimals, v, p);
        FewPlaces(raw, decimals, n, w, f);
      }
    } else {
      NormalPrinted(n, w, f, decimals);
      var raw := ValueOf(w) * Pow(10, decimals) + ValueOf(f + Zeroes(decimals - |f|));
      AmountTextIff(raw, decimals, v, p);
      PowPositive(10, decimals);
      PowPositive(10, p);
      MulGrows(Pow(10, decimals), ValueOf(w));
      forall other: nat | other * Pow(10, p) == v * Pow(10, decimals) ensures other == raw {
        CancelScale(other, raw, Pow(10, p));
      }
    }
  }

  lemma NormalParts(n: string, w: string, f: string)
    requires Normal(n, w, f)
    ensures w != "" && AllDigits(w) && AllDigits(f)
  {
  }

  lemma FewPlaces(raw: nat, decimals: nat, n: string, w: string, f: string)
    requires Normal(n, w, f) && |f| > decimals
    ensures AmountText(raw, decimals) != n
  {
    hide AmountText, Pow, ValueOf, Zeroes, SplitDot;
    NormalSplit(n, w, f);
    var w', f' := TextParts(raw, decimals);
    SplitDotAt(w', f');
  }

  /** A printed amount, by its own characters: no superfluous zero, and the rational it stands for. */
  lemma AmountMeans(raw: nat, decimals: nat) returns (w: string, f: string)
    ensures Normal(AmountText(raw, decimals), w, f) && AllDigits(w + f)
    ensures Placed(w + f) * Pow(10, decimals) == raw * Pow(10, |f|)
  {
    hide AmountText, Placed, Pow, Normal, ValueOf, Zeroes;
    w, f := TextParts(raw, decimals);
    AmountNormal(raw, decimals, w, f);
    PlacedConcat(w, f);
    ValueIsPlaced(w);
    ValueIsPlaced(f);
    ValueZeros(f, decimals - |f|);
    PowAdd(10, |f|, decimals - |f|);
    SameRational(Placed(w), Placed(f), Pow(10, |f|), Pow(10, decimals - |f|));
  }

  lemma SameRational(v: nat, x: nat, p: nat, g: nat)
    ensures (v * p + x) * (p * g) == (v * (p * g) + x * g) * p
  {
    Rescale(v, x, p, g);
    assert (v * p + x) * (p * g) == v * p * (p * g) + x * (p * g);
    assert (v * (p * g) + x * g) * p == v * (p * g) * p + x * g * p;
  }

  lemma QuotientPrinted(q: nat)
    ensures Dec(q) != "" && AllDigits(Dec(q)) && (|Dec(q)| > 1 ==> Dec(q)[0] != '0')
  {
    hide ValueOf;
    DecValue(q);
    SingleZero(q);
  }

  lemma RemainderPrinted(r: nat, places: nat)
    requires 0 < r < Pow(10, places)
    ensures var f := TrimEndZeros(Padded(r, places)); f != "" && AllDigits(f) && f[|f| - 1] != '0'
  {
    hide ValueOf, Placed, Pow, Padded;
    var p := Padded(r, places);
    PaddedValue(r, places);
    FractionPrinted(p);
    ValueIsPlaced(p);
    assert forall i :: 0 <= i < |TrimEndZeros(p)| ==> TrimEndZeros(p)[i] == p[i];
  }

  lemma TextNormal(raw: nat, decimals: nat) returns (w: string, f: string)
    ensures Normal(AmountText(raw, decimals), w, f)
  {
    hide Dec, Padded, TrimEndZeros, Pow, AllDigits;
    PowPositive(10, decimals);
    var q, r := raw / Pow(10, decimals), raw % Pow(10, decimals);
    w := Dec(q);
    QuotientPrinted(q);
    if r == 0 {
      f := "";
      Nothing(w);
      assert AllDigits("") by { NoDigits(); }
    } else {
      f := TrimEndZeros(Padded(r, decimals));
      RemainderPrinted(r, decimals);
      Assoc(w, ".", f);
    }
  }

  lemma NoDigits()
    ensures AllDigits("")
  {
  }

  lemma AmountNormal(raw: nat, decimals: nat, w: string, f: string)
    requires AmountText(raw, decimals) == (if f == "" then w else w + "." + f)
    requires w != "" && '.' !in w
    ensures Normal(AmountText(raw, decimals), w, f)
  {
    hide AmountText, SplitDot, AllDigits;
    var w', f' := TextNormal(raw, decimals);
    NormalSplit(AmountText(raw, decimals), w', f');
    SplitDotAt(w, f);
  }

  lemma SingleZero(n: nat)
    ensures n == 0 ==> Dec(n) == "0"
  {
  }

  // ----- Leverage -----

  /** `split_whitespace`. */
  function Words(s: string): (r: seq<string>)
    ensures s != "" && !IsSpace(s[|s| - 1]) ==> r != []
  {
    if s == "" then [] else
    var n := |s| - 1;
    var front := Words(s[..n]);
    if IsSpace(s[n]) then front
    else if n == 0 || IsSpace(s[n - 1]) then front + [[s[n]]]
    else front[..|front| - 1] + [front[|front| - 1] + [s[n]]]
  }

  function Joined(words: seq<string>): string {
    if words == [] then "" else
    var n := |words| - 1;
    if n == 0 then words[0] else Joined(words[..n]) + " " + words[n]
  }

  /** `trim_end_matches`. */
  function DropEnd(s: string, c: char): string {
    if s != "" && s[|s| - 1] == c then DropEnd(s[..|s| - 1], c) else s
  }

  /** White space collapsed, and the multiplier sign gone. */
  function LeverageText(value: string): string {
    DropEnd(DropEnd(Joined(Words(value)), 'x'), 'X')
  }

  /** `leverage_to_x100`: a decimal with at most two places, in hundredths that fit a `u32`. */
  function LeverageToX100(value: string): Result<u32, ApiError> {
    var n :- NormalizeDecimal(LeverageText(value));
    var (whole, frac) := SplitDot(n);
    var _ :- Need(|frac| <= 2, TooManyPlaces);
    var _ :- Need(AllDigits(whole) && ValueOf(whole) < 0x1_0000_0000, TooLarge);
    var padded := frac + Zeroes(2 - |frac|);
    var _ :- Need(AllDigits(padded) && ValueOf(padded) < 0x1_0000_0000, TooLarge);
    var _ :- Need(ValueOf(whole) * 100 < 0x1_0000_0000, TooLarge);
    var _ :- Need(ValueOf(whole) * 100 + ValueOf(padded) < 0x1_0000_0000, TooLarge);
    Ok(ValueOf(whole) * 100 + ValueOf(padded))
  }

  /** Leverage is read as an amount with two decimals would be, within a `u32`, and prints back as the
      normalised text it was read from. */
  lemma LeverageIff(value: string, x: u32)
    ensures var s := LeverageText(value);
      && (LeverageToX100(value) == Ok(x)
          <==> NormalizeDecimal(s).Ok? && DecimalToRaw(NormalizeDecimal(s).value, 2) == Ok(x))
      && (LeverageToX100(value) == Ok(x) ==> AmountText(x, 2) == NormalizeDecimal(s).value)
  {
    hide NormalizeDecimal, SplitDot, ValueOf, Zeroes, AmountText, LeverageText;
    var s := LeverageText(value);
    if NormalizeDecimal(s).Ok? {
      var n := NormalizeDecimal(s).value;
      var w, f := NormalShape(s);
      NormalSplit(n, w, f);
      assert Pow(10, 2) == 100;
      if DecimalToRaw(n, 2) == Ok(x) {
        ReadThenPrint(s, n, 2, x);
      }
    }
  }

  lemma {:induction false} OneWord(s: string)
    requires s != "" && forall i :: 0 <= i < |s| ==> !IsSpace(s[i])
    ensures Words(s) == [s] && Joined([s]) == s
  {
    hide IsSpace;
    var n := |s| - 1;
    if n == 0 {
      assert s[..0] == "" && s == [s[0]];
    } else {
      OneWord(s[..n]);
      assert [s[..n]][..0] == [] && s[..n] + [s[n]] == s;
    }
  }

  /** A multiplier sign behind a number, in either case, makes no difference. */
  lemma SignIsOptional(s: string, sign: char)
    requires s != "" && (forall i :: 0 <= i < |s| ==> !IsSpace(s[i]))
    requires s[|s| - 1] != 'x' && s[|s| - 1] != 'X' && (sign == 'x' || sign == 'X')
    ensures LeverageText(s + [sign]) == LeverageText(s) == s
  {
    hide IsSpace, Words, Joined;
    LetterNotSpace();
    OneWord(s);
    OneWord(s + [sign]);
    assert (s + [sign])[..|s|] == s;
  }

  lemma LetterNotSpace()
    ensures !IsSpace('x') && !IsSpace('X')
  {
  }

  /** The value is read as the hundredths it stands for, whatever zeros it is written with. */
  lemma LeverageReads(value: string, x: u32)
    ensures LeverageToX100(value) == Ok(x)
            <==> exists whole, frac {:trigger Written(Trim(LeverageText(value)), whole, frac)} ::
                   Written(Trim(LeverageText(value)), whole, frac) && AllDigits(whole + frac)
                   && x * Pow(10, |frac|) == Placed(whole + frac) * 100
  {
    hide LeverageToX100, NormalizeDecimal, DecimalToRaw, AmountText, Placed, Pow, Trim, Written, LeverageText;
    var s := LeverageText(value);
    LeverageIff(value, x);
    NormalizeIff(s);
    assert Pow(10, 2) == 100 by { Hundred(); }
    if LeverageToX100(value) == Ok(x) {
      var whole, frac :| Written(Trim(s), whole, frac);
      ReadsExactly(s, whole, frac, 2, x);
    }
    if whole, frac :| Written(Trim(s), whole, frac) && AllDigits(whole + frac)
                      && x * Pow(10, |frac|) == Placed(whole + frac) * 100 {
      ReadsExactly(s, whole, frac, 2, x);
    }
  }

  lemma Hundred()
    ensures Pow(10, 2) == 100
  {
  }

  /** Words with a gap before, between and behind them. */
  function Woven(gaps: seq<string>, words: seq<string>): string
    requires |gaps| == |words| + 1
  {
    var n := |words|;
    if n == 0 then gaps[0] else Woven(gaps[..n], words[..n - 1]) + words[n - 1] + gaps[n]
  }

  predicate IsWord(w: string) { w != "" && forall i :: 0 <= i < |w| ==> !IsSpace(w[i]) }

  ghost predicate Apart(gaps: seq<string>, words: seq<string>) {
    && |gaps| == |words| + 1 && (forall i :: 0 <= i < |gaps| ==> AllSpace(gaps[i]))
    && (forall i :: 0 < i < |words| ==> gaps[i] != "") && (forall i :: 0 <= i < |words| ==> IsWord(words[i]))
  }

  /** What `split_whitespace` finds, and the white space it leaves out, make up the text. */
  lemma {:induction false} WordsExact(s: string) returns (gaps: seq<string>)
    ensures Apart(gaps, Words(s)) && Woven(gaps, Words(s)) == s
    ensures s != "" && IsSpace(s[|s| - 1]) ==> gaps[|Words(s)|] != ""
    ensures s != "" && !IsSpace(s[|s| - 1]) ==> Words(s) != [] && gaps[|Words(s)|] == ""
  {
    hide IsSpace, Woven, Apart, Words;
    if s == "" {
      gaps := [""];
      NoWords();
    } else {
      var n := |s| - 1;
      var front := Words(s[..n]);
      var before := WordsExact(s[..n]);
      var m := |front|;
      assert |before| == m + 1 by { ApartLength(before, front); }
      assert s == s[..n] + [s[n]];
      if IsSpace(s[n]) {
        gaps := before[..m] + [before[m] + [s[n]]];
        WordsSpace(s);
        LongerGap(before, front, s[n]);
      } else if n == 0 || IsSpace(s[n - 1]) {
        gaps := before + [""];
        NoWords();
        assert n == 0 ==> s[..n] == "";
        assert n > 0 ==> s[..n][n - 1] == s[n - 1];
        WordsNew(s);
        NewWord(before, front, s[n]);
      } else {
        gaps := before;
        WordsLonger(s);
        LongerWord(before, front, s[n]);
      }
    }
  }

  lemma ApartLength(gaps: seq<string>, words: seq<string>)
    requires Apart(gaps, words)
    ensures |gaps| == |words| + 1
  {
  }

  lemma NoWords()
    ensures Words("") == [] && Apart([""], []) && Woven([""], []) == ""
  {
  }

  lemma WordsSpace(s: string)
    requires s != "" && IsSpace(s[|s| - 1])
    ensures Words(s) == Words(s[..|s| - 1])
  {
    hide IsSpace;
  }

  lemma WordsNew(s: string)
    requires s != "" && !IsSpace(s[|s| - 1]) && (|s| == 1 || IsSpace(s[|s| - 2]))
    ensures Words(s) == Words(s[..|s| - 1]) + [[s[|s| - 1]]]
  {
    hide IsSpace;
  }

  lemma WordsLonger(s: string)
    requires |s| > 1 && !IsSpace(s[|s| - 1]) && !IsSpace(s[|s| - 2])
    ensures var front := Words(s[..|s| - 1]);
      front != [] && Words(s) == front[..|front| - 1] + [front[|front| - 1] + [s[|s| - 1]]]
  {
    hide IsSpace;
  }

  lemma LongerGap(gaps: seq<string>, words: seq<string>, c: char)
    requires Apart(gaps, words) && IsSpace(c)
    ensures var m := |words|; var longer := gaps[..m] + [gaps[m] + [c]];
      Apart(longer, words) && Woven(longer, words) == Woven(gaps, words) + [c]
  {
    hide IsSpace, IsWord, Woven;
    WovenGap(gaps, words, c);
    SpaceSnoc(gaps[|words|], c);
  }

  lemma SpaceSnoc(s: string, c: char)
    requires AllSpace(s) && IsSpace(c)
    ensures AllSpace(s + [c])
  {
  }

  lemma WovenGap(gaps: seq<string>, words: seq<string>, c: char)
    requires |gaps| == |words| + 1
    ensures var m := |words|; Woven(gaps[..m] + [gaps[m] + [c]], words) == Woven(gaps, words) + [c]
  {
    var m := |words|;
    var longer := gaps[..m] + [gaps[m] + [c]];
    if m > 0 {
      assert longer[..m] == gaps[..m];
      Assoc(Woven(gaps[..m], words[..m - 1]) + words[m - 1], gaps[m], [c]);
    }
  }

  lemma NewWord(gaps: seq<string>, words: seq<string>, c: char)
    requires Apart(gaps, words) && !IsSpace(c) && (words != [] ==> gaps[|words|] != "")
    ensures Apart(gaps + [""], words + [[c]]) && Woven(gaps + [""], words + [[c]]) == Woven(gaps, words) + [c]
  {
    hide IsSpace, AllSpace, IsWord, Woven;
    OneLetter(c);
    WovenMore(gaps, words, c);
  }

  lemma OneLetter(c: char)
    requires !IsSpace(c)
    ensures IsWord([c]) && AllSpace("")
  {
    hide IsSpace;
  }

  lemma WovenMore(gaps: seq<string>, words: seq<string>, c: char)
    requires |gaps| == |words| + 1
    ensures Woven(gaps + [""], words + [[c]]) == Woven(gaps, words) + [c]
  {
    var m := |words|;
    assert (gaps + [""])[..m + 1] == gaps && (words + [[c]])[..m] == words;
    Nothing(Woven(gaps, words) + [c]);
  }

  lemma LongerWord(gaps: seq<string>, words: seq<string>, c: char)
    requires Apart(gaps, words) && words != [] && gaps[|words|] == "" && !IsSpace(c)
    ensures var m := |words|; var longer := words[..m - 1] + [words[m - 1] + [c]];
      Apart(gaps, longer) && Woven(gaps, longer) == Woven(gaps, words) + [c]
  {
    hide IsSpace;
    var m := |words|;
    var longer := words[..m - 1] + [words[m - 1] + [c]];
    assert longer[..m - 1] == words[..m - 1];
    var before := Woven(gaps[..m], words[..m - 1]);
    Assoc(before, words[m - 1], [c]);
    Nothing(before + words[m - 1]);
    Nothing(before + words[m - 1] + [c]);
  }

  function SingleGaps(n: nat): (r: seq<string>)
    ensures |r| == n + 1
  {
    seq(n + 1, i => if i == 0 || i == n then "" else " ")
  }

  /** Joining puts one space between words and nothing at the ends. */
  lemma {:induction false} JoinedExact(words: seq<string>)
    ensures Joined(words) == Woven(SingleGaps(|words|), words)
  {
    var n := |words|;
    if n == 1 {
      assert SingleGaps(1) == ["", ""];
      assert SingleGaps(1)[..1] == [""] && words[..0] == [];
      Nothing(words[0]);
    } else if n > 1 {
      var m := n - 1;
      JoinedExact(words[..m]);
      var front, gaps := SingleGaps(m), SingleGaps(n);
      assert front[..m] == gaps[..n][..m];
      assert gaps[..n][m] == " " && front[m] == "";
      Nothing(Woven(front, words[..m]));
      var w := Woven(front[..m], words[..m][..m - 1]) + words[..m][m - 1];
      Nothing(w);
      assert Woven(gaps[..n], words[..m]) == w + " ";
      Nothing(w + " " + words[m]);
    }
  }

  /** Only a run of the sign at the end is dropped. */
  lemma {:induction false} DropEndExact(s: string, c: char) returns (k: nat)
    ensures k <= |s| && DropEnd(s, c) == s[..|s| - k] && forall i :: |s| - k <= i < |s| ==> s[i] == c
    ensures DropEnd(s, c) != "" ==> DropEnd(s, c)[|s| - k - 1] != c
  {
    if s != "" && s[|s| - 1] == c {
      var m := DropEndExact(s[..|s| - 1], c);
      k := m + 1;
      assert s[..|s| - 1][..|s| - 1 - m] == s[..|s| - k];
    } else {
      k := 0;
      assert s[..|s|] == s;
    }
  }
}

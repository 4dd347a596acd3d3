/** Result and option types, machine integers, powers and little-endian words
    shared by every other module. */
module Base {

  datatype Option<+T> = None | Some(value: T)

  /** The outcome of an operation that can be refused; usable with `:-`. */
  datatype Result<+T, +E> = Ok(value: T) | Err(error: E) {
    predicate IsFailure() { Err? }

    function PropagateFailure<U>(): Result<U, E>
      requires Err?
    {
      Err(error)
    }

    function Extract(): T
      requires Ok?
    {
      value
    }
  }

  function Need<E>(condition: bool, error: E): Result<(), E> {
    if condition then Ok(()) else Err(error)
  }

  type byte = x: int | 0 <= x < 256
  type u16 = x: int | 0 <= x < 0x1_0000
  type u32 = x: int | 0 <= x < 0x1_0000_0000
  type u64 = x: int | 0 <= x < 0x1_0000_0000_0000_0000
  type u128 = x: int | 0 <= x < 0x1_0000_0000_0000_0000_0000_0000_0000_0000
  type i64 = x: int | -0x8000_0000_0000_0000 <= x < 0x8000_0000_0000_0000

  /** A Rust `[u8; 32]`. */
  type Bytes32 = s: seq<byte> | |s| == 32 witness Zeros(32)

  const ZERO32: Bytes32 := Zeros(32)

  function Zeros(n: nat): (r: seq<byte>)
    ensures |r| == n && forall i :: 0 <= i < n ==> r[i] == 0
  {
    if n == 0 then [] else Zeros(n - 1) + [0]
  }

  predicate IsZero(s: Bytes32) {
    s == ZERO32
  }

  /** The bytes of an ASCII literal. */
  function Ascii(s: string): (r: seq<byte>)
    ensures |r| == |s|
  {
    seq(|s|, i requires 0 <= i < |s| => s[i] as int % 256)
  }

  lemma AsciiAt(s: string, i: nat)
    requires i < |s| && (s[i] as int) < 0x80
    ensures Ascii(s)[i] == s[i] as int
  {
  }

  function Pow(base: nat, exponent: nat): nat {
    if exponent == 0 then 1 else base * Pow(base, exponent - 1)
  }

  lemma {:induction false} PowPositive(base: nat, e: nat)
    requires base > 0
    ensures Pow(base, e) > 0
  {
    if e > 0 {
      PowPositive(base, e - 1);
    }
  }

  lemma {:induction false} PowAdd(base: nat, a: nat, b: nat)
    ensures Pow(base, a + b) == Pow(base, a) * Pow(base, b)
  {
    if a == 0 {
      assert Pow(base, 0) == 1;
    } else {
      PowAdd(base, a - 1, b);
      MulAssoc(base, Pow(base, a - 1), Pow(base, b));
      assert Pow(base, a + b) == base * Pow(base, a - 1 + b);
    }
  }

  lemma MulAssoc(x: nat, y: nat, z: nat)
    ensures x * (y * z) == x * y * z
  {
  }

  lemma MulGrows(k: nat, x: nat)
    requires k > 0
    ensures x <= k * x
  {
    assert k * x == x + (k - 1) * x;
  }

  lemma MulMonotone(a: int, b: int, m: nat)
    requires a <= b
    ensures a * m <= b * m
  {
    assert b * m == a * m + (b - a) * m;
  }

  lemma DivMod(n: nat, m: nat)
    requires m > 0
    ensures n == n / m * m + n % m
  {
  }

  lemma DivModUnique(q: nat, r: nat, m: nat)
    requires r < m
    ensures (q * m + r) / m == q && (q * m + r) % m == r
  {
    var n := q * m + r;
    DivMod(n, m);
    if q < n / m {
      MulMonotone(q + 1, n / m, m);
    } else if n / m < q {
      MulMonotone(n / m + 1, q, m);
    }
  }

  lemma {:induction false} PowMonotone(base: nat, a: nat, b: nat)
    requires base > 0 && a <= b
    ensures Pow(base, a) <= Pow(base, b)
    decreases b
  {
    if a < b {
      PowMonotone(base, a, b - 1);
      PowPositive(base, b - 1);
      MulGrows(base, Pow(base, b - 1));
    }
  }

  /** `v.to_le_bytes()` cut to `n` bytes. */
  function LE(v: nat, n: nat): (r: seq<byte>)
    ensures |r| == n
  {
    if n == 0 then [] else [v % 256] + LE(v / 256, n - 1)
  }

  /** `from_le_bytes`. */
  function FromLE(s: seq<byte>): nat {
    if s == [] then 0 else s[0] + 256 * FromLE(s[1..])
  }

  lemma {:induction false} FromLEBound(s: seq<byte>)
    ensures FromLE(s) < Pow(256, |s|)
  {
    if s != [] {
      FromLEBound(s[1..]);
    }
  }

  lemma {:induction false} LERoundTrip(v: nat, n: nat)
    requires v < Pow(256, n)
    ensures FromLE(LE(v, n)) == v
  {
    if n > 0 {
      LERoundTrip(v / 256, n - 1);
      assert LE(v, n)[1..] == LE(v / 256, n - 1);
    }
  }

  lemma {:induction false} FromLERoundTrip(s: seq<byte>)
    ensures LE(FromLE(s), |s|) == s
  {
    if s != [] {
      var v, w := FromLE(s), FromLE(s[1..]);
      FromLERoundTrip(s[1..]);
      DivModUnique(w, s[0], 256);
      assert v == w * 256 + s[0];
      assert LE(v, |s|) == [v % 256] + LE(v / 256, |s| - 1);
      assert s == [s[0]] + s[1..];
    }
  }

  lemma DivTwice(v: nat, a: nat, b: nat)
    requires a > 0 && b > 0
    ensures a * b > 0 && v / a / b == v / (a * b)
  {
    var w, r := v / a, v % a;
    var q, s := w / b, w % b;
    DivMod(v, a);
    DivMod(w, b);
    MulMonotone(s + 1, b, a);
    MulAssoc(q, b, a);
    assert w * a == (q * b) * a + s * a;
    assert v == q * (b * a) + (s * a + r);
    DivModUnique(q, s * a + r, b * a);
  }

  /** Byte `i` of a word is its digit of weight `256^i`: the low byte comes first. */
  lemma {:induction false} LEAt(v: nat, n: nat, i: nat)
    requires i < n
    ensures Pow(256, i) > 0 && LE(v, n)[i] == v / Pow(256, i) % 256
  {
    if i == 0 {
      assert Pow(256, 0) == 1;
    } else {
      PowPositive(256, i - 1);
      LEAt(v / 256, n - 1, i - 1);
      DivTwice(v, 256, Pow(256, i - 1));
    }
  }

  /** The sum of all `s[i] * 256^i`. */
  function PlaceSum(s: seq<byte>): nat {
    if s == [] then 0 else PlaceSum(s[..|s| - 1]) + s[|s| - 1] * Pow(256, |s| - 1)
  }

  lemma {:induction false} PlaceSumCons(b: byte, s: seq<byte>)
    ensures PlaceSum([b] + s) == b + 256 * PlaceSum(s)
  {
    var t := [b] + s;
    if s == [] {
      assert t[..0] == [] && Pow(256, 0) == 1;
    } else {
      var n := |s| - 1;
      PlaceSumCons(b, s[..n]);
      assert t[..|t| - 1] == [b] + s[..n];
      assert s[n] * Pow(256, n + 1) == 256 * (s[n] * Pow(256, n)) by { MulAssoc(s[n], 256, Pow(256, n)); }
    }
  }

  /** A word that is read stands for that sum. */
  lemma {:induction false} FromLEIsSum(s: seq<byte>)
    ensures FromLE(s) == PlaceSum(s)
  {
    if s != [] {
      FromLEIsSum(s[1..]);
      PlaceSumCons(s[0], s[1..]);
      assert s == [s[0]] + s[1..];
    }
  }

  /** Word sizes used on the wire. */
  lemma WordSizes()
    ensures Pow(256, 1) == 0x100 && Pow(256, 2) == 0x1_0000 && Pow(256, 4) == 0x1_0000_0000
    ensures Pow(256, 8) == 0x1_0000_0000_0000_0000
    ensures Pow(256, 16) == 0x1_0000_0000_0000_0000_0000_0000_0000_0000
  {
    PowAdd(256, 2, 2);
    PowAdd(256, 4, 4);
    PowAdd(256, 8, 8);
  }

  /** Two's complement view of an `i64`. */
  function Twos(v: i64): u64 {
    if v < 0 then v + 0x1_0000_0000_0000_0000 else v
  }

  function FromTwos(w: u64): i64 {
    if w >= 0x8000_0000_0000_0000 then w - 0x1_0000_0000_0000_0000 else w
  }

  lemma Assoc<T>(a: seq<T>, b: seq<T>, c: seq<T>)
    ensures a + (b + c) == a + b + c
  {
  }

  lemma Nothing<T>(s: seq<T>)
    ensures s + [] == s && [] + s == s
  {
  }

  /** Pieces laid out from the right, as a sequence of appends. */
  lemma Regroup<T>(b: seq<T>, w: seq<T>, x: seq<T>, y: seq<T>, z: seq<T>)
    ensures b + (w + (x + (y + z))) == b + w + x + y + z
  {
    Assoc(b, w, x + (y + z));
    Assoc(b + w, x, y + z);
    Assoc(b + w + x, y, z);
  }

  /** A tail moved out of a layout. */
  lemma TailOut<T>(a: seq<T>, b: seq<T>, c: seq<T>, d: seq<T>, t: seq<T>)
    ensures a + (b + (c + (d + t))) == a + (b + (c + d)) + t
  {
    Assoc(c, d, t);
    Assoc(b, c + d, t);
    Assoc(a, b + (c + d), t);
  }

  /** Two concatenations with heads of equal length agree part by part. */
  lemma SplitEqual<T>(a: seq<T>, b: seq<T>, s: seq<T>, t: seq<T>)
    requires |a| == |b| && a + s == b + t
    ensures a == b && s == t
  {
    assert a == (a + s)[..|a|] && b == (b + t)[..|b|];
    assert s == (a + s)[|a|..] && t == (b + t)[|b|..];
  }
}

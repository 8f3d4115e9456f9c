/** consumeVarint of go/subprocess_ingress.go against the arithmetic reading of "Base 128
    Varints" (Protocol Buffers Encoding specification), and the standard encoder. */
module Varint {
  import opened Abi

  const MAX_VARINT_BYTES: nat := 10

  // ---------------------------------------------------------------- 64-bit machine operations

  function Pow2(k: nat): (p: nat)
    ensures p > 0
  {
    if k == 0 then 1 else 2 * Pow2(k - 1)
  }

  /** a | b, bit by bit. */
  function Or(a: nat, b: nat): nat {
    if a == 0 && b == 0 then 0
    else (if a % 2 == 1 || b % 2 == 1 then 1 else 0) + 2 * Or(a / 2, b / 2)
  }

  /** a & b, bit by bit. */
  function And(a: nat, b: nat): nat {
    if a == 0 || b == 0 then 0
    else (if a % 2 == 1 && b % 2 == 1 then 1 else 0) + 2 * And(a / 2, b / 2)
  }

  /** x << k in 64 bits: the high bits fall off. */
  function Shl(x: uint64, k: nat): uint64 {
    (x * Pow2(k)) % 0x1_0000_0000_0000_0000
  }

  /** OR of numbers with no bit in common is addition. */
  lemma {:induction false} OrDisjoint(a: nat, x: nat, k: nat)
    requires a < Pow2(k)
    ensures Or(a, x * Pow2(k)) == a + x * Pow2(k)
    decreases k
  {
    if k == 0 {
      OrZero(x);
    } else {
      var half := x * Pow2(k - 1);
      assert x * Pow2(k) == 2 * half;
      OrDisjoint(a / 2, x, k - 1);
    }
  }

  lemma {:induction false} OrZero(x: nat)
    ensures Or(0, x) == x
  {
    if x > 0 { OrZero(x / 2); }
  }

  lemma {:induction false} AndLowBits(x: nat, k: nat)
    ensures And(x, Pow2(k) - 1) == x % Pow2(k)
    decreases k
  {
    if k == 0 {
      assert x % 1 == 0;
    } else if x > 0 {
      var p := Pow2(k - 1);
      var mask := 2 * p - 1;
      assert mask == Pow2(k) - 1 && mask % 2 == 1 && mask / 2 == p - 1;
      AndLowBits(x / 2, k - 1);
      ModDouble(x, p);
    } else {
      ModUnique(0, Pow2(k), 0, 0);
    }
  }

  lemma ModDouble(x: nat, p: nat)
    requires p > 0
    ensures x % (2 * p) == x % 2 + 2 * ((x / 2) % p)
  {
    var q := x / 2 / p;
    assert x / 2 == q * p + (x / 2) % p;
    assert x == (2 * p) * q + (x % 2 + 2 * ((x / 2) % p));
    ModUnique(x, 2 * p, q, x % 2 + 2 * ((x / 2) % p));
  }

  lemma ModUnique(x: nat, m: nat, q: nat, r: nat)
    requires m > 0 && r < m && x == m * q + r
    ensures x % m == r && x / m == q
  {
    var d := x / m - q;
    assert m * d == r - x % m;
    if d > 0 {
      MulAtLeast(m, d);
      assert false;
    } else if d < 0 {
      MulAtLeast(m, -d);
      assert false;
    }
  }

  lemma MulAtLeast(m: nat, d: int)
    requires d >= 1
    ensures m * d >= m && m * -d <= -(m as int)
  {
  }

  // ---------------------------------------------------------------- the arithmetic reading

  /** The number a group of base-128 digits denotes, least significant first. */
  function Digits(value: Bytes): nat {
    if value == [] then 0 else value[0] % 128 + 128 * Digits(value[1..])
  }

  datatype Parsed = Number(value: uint64, size: nat) | Truncated | TooLong

  ghost predicate Continues(value: Bytes, n: nat)
    requires n <= |value|
  {
    forall i :: 0 <= i < n ==> value[i] >= 128
  }

  /** The three outcomes, told apart without reference to the loop. */
  ghost predicate Denotes(value: Bytes, r: Parsed) {
    match r
    case Number(v, n) =>
      && 1 <= n <= |value| && n <= MAX_VARINT_BYTES
      && Continues(value, n - 1) && value[n - 1] < 128
      && (n == MAX_VARINT_BYTES ==> value[n - 1] <= 1)
      && v == Digits(value[..n])
    case Truncated => |value| < MAX_VARINT_BYTES && Continues(value, |value|)
    case TooLong => |value| >= MAX_VARINT_BYTES && Continues(value, MAX_VARINT_BYTES - 1) && value[MAX_VARINT_BYTES - 1] > 1
  }

  lemma DenotesUnique(value: Bytes, r: Parsed, s: Parsed)
    requires Denotes(value, r) && Denotes(value, s)
    ensures r == s
  {
  }

  /** The length of the leading run of continuation bytes, up to a limit. */
  function Leading(value: Bytes, limit: nat): (n: nat)
    ensures n <= limit && n <= |value| && Continues(value, n)
    ensures n < limit && n < |value| ==> value[n] < 128
  {
    if limit == 0 || value == [] || value[0] < 128 then 0 else 1 + Leading(value[1..], limit - 1)
  }

  /** The varint at the head of `value`. */
  function Parse(value: Bytes): (r: Parsed)
    ensures Denotes(value, r)
  {
    var n := Leading(value, MAX_VARINT_BYTES - 1);
    if n == |value| then Truncated
    else if value[n] >= 128 || (n == MAX_VARINT_BYTES - 1 && value[n] > 1) then TooLong
    else
      DigitsBound(value[..n + 1]);
      Number(Digits(value[..n + 1]), n + 1)
  }

  /** At most ten bytes, the tenth at most 1, always fit 64 bits. */
  lemma DigitsBound(value: Bytes)
    requires |value| <= MAX_VARINT_BYTES
    requires |value| == MAX_VARINT_BYTES ==> value[MAX_VARINT_BYTES - 1] <= 1
    ensures Digits(value) < 0x1_0000_0000_0000_0000
  {
    if |value| == MAX_VARINT_BYTES {
      DigitsSplit(value, 9);
      DigitsBelow(value[..9]);
      assert Digits(value[9..]) == value[9] + 128 * Digits(value[9..][1..]);
      Pow2Values();
    } else {
      DigitsBelow(value);
      Pow2Monotone(7 * |value|, 63);
      Pow2Values();
    }
  }

  lemma {:induction false} Pow2Monotone(j: nat, k: nat)
    requires j <= k
    ensures Pow2(j) <= Pow2(k)
    decreases k
  {
    if j < k { Pow2Monotone(j, k - 1); }
  }

  lemma {:induction false} DigitsBelow(value: Bytes)
    ensures Digits(value) < Pow2(7 * |value|)
  {
    if value != [] {
      DigitsBelow(value[1..]);
      Pow2Plus7(7 * |value[1..]|);
    }
  }

  lemma Pow2Plus7(k: nat)
    ensures Pow2(k + 7) == 128 * Pow2(k)
  {
    assert Pow2(k + 7) == 2 * Pow2(k + 6) == 4 * Pow2(k + 5) == 8 * Pow2(k + 4);
    assert Pow2(k + 4) == 2 * Pow2(k + 3) == 4 * Pow2(k + 2) == 8 * Pow2(k + 1);
  }

  lemma Pow2Values()
    ensures Pow2(7) == 128 && Pow2(63) == 0x8000_0000_0000_0000 && Pow2(70) == 0x40_0000_0000_0000_0000
  {
    Pow2Plus7(0);
    Pow2Plus7(7);
    Pow2Plus7(14);
    Pow2Plus7(21);
    Pow2Plus7(28);
    Pow2Plus7(35);
    Pow2Plus7(42);
    Pow2Plus7(49);
    Pow2Plus7(56);
    Pow2Plus7(63);
  }

  /** Digit n carries the weight 128^n. */
  lemma {:induction false} DigitsSplit(value: Bytes, n: nat)
    requires n <= |value|
    ensures Digits(value) == Digits(value[..n]) + Pow2(7 * n) * Digits(value[n..])
  {
    if n > 0 {
      var low, high := Digits(value[1..][..n - 1]), Digits(value[n..]);
      DigitsSplit(value[1..], n - 1);
      assert value[1..][..n - 1] == value[..n][1..] && value[1..][n - 1..] == value[n..];
      assert Digits(value[..n]) == value[0] % 128 + 128 * low;
      Pow2Plus7(7 * (n - 1));
      MulTriple(Pow2(7 * (n - 1)), high);
    } else {
      assert value[0..] == value;
    }
  }

  lemma MulTriple(p: nat, d: nat)
    ensures 128 * (p * d) == (128 * p) * d
  {
  }

  // ---------------------------------------------------------------- the loop

  /** consumeVarint: the value and the number of bytes read, 0 when truncated, -1 on overflow. */
  method ConsumeVarint(value: Bytes) returns (result: uint64, n: int)
    ensures n <= |value| && (n >= 1 <==> Parse(value).Number?)
    ensures match Parse(value)
      case Number(v, size) => result == v && n == size
      case Truncated => result == 0 && n == 0
      case TooLong => result == 0 && n == -1
  {
    result := 0;
    var i := 0;
    while i < |value|
      invariant 0 <= i <= |value| && i <= MAX_VARINT_BYTES
      invariant Continues(value, i)
      invariant i == MAX_VARINT_BYTES ==> value[MAX_VARINT_BYTES - 1] <= 1
      invariant result == Digits(value[..i])
    {
      var b := value[i];
      if i == 10 || (i == 9 && b > 1) {
        DenotesUnique(value, Parse(value), TooLong);
        return 0, -1;
      }
      DigitStep(value, i);
      result := Or(result, Shl(And(b, 0x7f), 7 * i));
      if b < 0x80 {
        DenotesUnique(value, Parse(value), Number(result, i + 1));
        return result, i + 1;
      }
      i := i + 1;
    }
    assert value[..i] == value;
    DenotesUnique(value, Parse(value), Truncated);
    return 0, 0;
  }

  /** One iteration: masking, shifting and OR-ing in 64 bits adds the next digit, and loses
      nothing. */
  lemma DigitStep(value: Bytes, i: nat)
    requires i < |value| && i < MAX_VARINT_BYTES && (i == 9 ==> value[i] <= 1)
    ensures And(value[i], 0x7f) < 128
    ensures Digits(value[..i]) < 0x1_0000_0000_0000_0000
    ensures Or(Digits(value[..i]), Shl(And(value[i], 0x7f), 7 * i)) == Digits(value[..i + 1])
    ensures Digits(value[..i + 1]) < 0x1_0000_0000_0000_0000
  {
    hide Digits, Or, And, Pow2;
    var x := value[i] % 128;
    LowSeven(value[i]);
    DigitsBelow(value[..i]);
    DigitsBound(value[..i + 1]);
    DigitsBound(value[..i]);
    LastDigit(value, i);
    OrDisjoint(Digits(value[..i]), x, 7 * i);
  }

  lemma LowSeven(b: byte)
    ensures And(b, 0x7f) == b % 128
  {
    hide And;
    assert Pow2(7) == 128;
    AndLowBits(b, 7);
  }

  lemma LastDigit(value: Bytes, i: nat)
    requires i < |value|
    ensures Digits(value[..i + 1]) == Digits(value[..i]) + (value[i] % 128) * Pow2(7 * i)
  {
    var x := value[i] % 128;
    DigitsSplit(value[..i + 1], i);
    assert value[..i + 1][..i] == value[..i] && value[..i + 1][i..] == [value[i]];
    assert Digits([value[i]]) == x + 128 * Digits([value[i]][1..]) == x;
    hide Digits, Pow2;
    assert x * Pow2(7 * i) == Pow2(7 * i) * x;
  }

  // ---------------------------------------------------------------- the standard encoder

  function Encode(v: uint64): (bytes: Bytes)
    ensures bytes != []
  {
    if v < 128 then [v] else [v % 128 + 128] + Encode(v / 128)
  }

  lemma {:induction false} EncodeShape(v: uint64, k: nat)
    requires v < Pow2(7 * k) && k > 0
    ensures var e := Encode(v);
      && |e| <= k && Continues(e, |e| - 1) && e[|e| - 1] < 128 && Digits(e) == v
    decreases k
  {
    if v < 128 {
      assert [v][1..] == [];
    } else {
      Shrinks(v, k);
      hide Pow2, Digits;
      EncodeShape(v / 128, k - 1);
      Prefixed(v % 128 + 128, Encode(v / 128));
    }
  }

  /** A continuation byte in front of a varint. */
  lemma Prefixed(b: byte, rest: Bytes)
    requires b >= 128 && rest != [] && Continues(rest, |rest| - 1)
    ensures var e := [b] + rest;
      Continues(e, |e| - 1) && e[|e| - 1] == rest[|rest| - 1] && Digits(e) == b % 128 + 128 * Digits(rest)
  {
    assert ([b] + rest)[1..] == rest;
  }

  lemma Shrinks(v: nat, k: nat)
    requires 128 <= v < Pow2(7 * k) && k > 0
    ensures k > 1 && v / 128 < Pow2(7 * (k - 1))
  {
    Pow2Plus7(7 * (k - 1));
    assert Pow2(7) == 128;
  }

  /** A tenth byte of a 64-bit value is its bit 63. */
  lemma TenthByte(e: Bytes)
    requires |e| == MAX_VARINT_BYTES && e[9] < 128 && Digits(e) < 0x1_0000_0000_0000_0000
    ensures e[9] <= 1
  {
    DigitsSplit(e, 9);
    Pow2Values();
    assert e[9..][1..] == [];
    assert Digits(e[9..]) == e[9];
  }

  /** Decoding undoes the standard encoding, whatever follows it. */
  lemma ParseEncoded(v: uint64, suffix: Bytes)
    ensures |Encode(v)| <= MAX_VARINT_BYTES
    ensures Parse(Encode(v) + suffix) == Number(v, |Encode(v)|)
  {
    var e := Encode(v);
    Pow2Values();
    EncodeShape(v, MAX_VARINT_BYTES);
    if |e| == MAX_VARINT_BYTES { TenthByte(e); }
    assert (e + suffix)[..|e|] == e;
    DenotesUnique(e + suffix, Parse(e + suffix), Number(v, |e|));
  }
}

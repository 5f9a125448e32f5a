/** Byte strings read as base-256 numbers, most significant byte first. */
module Numeral {
  import opened Bytes

  function Pow(n: nat): (r: nat)
    ensures r >= 1
  {
    if n == 0 then 1 else 256 * Pow(n - 1)
  }

  function Num(b: Bytes): nat {
    if b == [] then 0 else b[0] as nat * Pow(|b| - 1) + Num(b[1..])
  }

  /** The `n` low-order bytes of `v`. */
  function Digits(n: nat, v: nat): (r: Bytes)
    ensures |r| == n
  {
    if n == 0 then [] else Digits(n - 1, v / 256) + [(v % 256) as Byte]
  }

  function Zeros(n: nat): (r: Bytes)
    ensures |r| == n && forall i :: 0 <= i < n ==> r[i] == 0
  {
    seq(n, i => 0 as Byte)
  }

  lemma {:induction false} NumBound(b: Bytes)
    ensures Num(b) < Pow(|b|)
  {
    if b != [] {
      NumBound(b[1..]);
      DigitBound(b[0] as nat, Num(b[1..]), Pow(|b| - 1));
    }
  }

  lemma DigitBound(d: nat, low: nat, p: nat)
    requires d < 256 && low < p
    ensures d * p + low < 256 * p
  {
    assert d * p <= 255 * p;
  }

  lemma {:induction false} NumAppend(b: Bytes, x: Byte)
    ensures Num(b + [x]) == Num(b) * 256 + x as nat
  {
    if b == [] {
      assert b + [x] == [x];
      assert Num([x]) == x as nat * Pow(0) + Num([x][1..]);
    } else {
      assert (b + [x])[1..] == b[1..] + [x];
      NumAppend(b[1..], x);
      var d, p := b[0] as nat, Pow(|b| - 1);
      assert Num(b + [x]) == d * Pow(|b|) + Num(b[1..] + [x]);
      assert d * (256 * p) == d * p * 256;
    }
  }

  /** Decoding inverts encoding, up to the width. */
  lemma {:induction false} NumDigits(n: nat, v: nat)
    ensures Num(Digits(n, v)) == v % Pow(n)
  {
    if n == 0 {
    } else {
      NumAppend(Digits(n - 1, v / 256), (v % 256) as Byte);
      NumDigits(n - 1, v / 256);
      ModShift(v, Pow(n - 1));
    }
  }

  lemma ModShift(v: nat, p: nat)
    requires p >= 1
    ensures v / 256 % p * 256 + v % 256 == v % (256 * p)
  {
    var q, r := v / 256 / p, v / 256 % p;
    assert v / 256 == q * p + r;
    var w := r * 256 + v % 256;
    assert v == q * (256 * p) + w by {
      assert v == (q * p + r) * 256 + v % 256;
      assert (q * p + r) * 256 == q * (256 * p) + r * 256;
    }
    assert 0 <= w < 256 * p by {
      assert r <= p - 1;
      assert r * 256 <= (p - 1) * 256;
    }
    ModUnique(v, 256 * p, q, w);
  }

  lemma ModUnique(v: nat, m: nat, q: nat, w: nat)
    requires m >= 1 && v == q * m + w && w < m
    ensures v % m == w && v / m == q
  {
    LeadingDigit(v / m, v % m, q, w, m);
  }

  /** Encoding inverts decoding. */
  lemma {:induction false} DigitsNum(b: Bytes)
    ensures Digits(|b|, Num(b)) == b
    decreases |b|
  {
    if b != [] {
      var front, x := b[..|b| - 1], b[|b| - 1];
      assert b == front + [x];
      NumAppend(front, x);
      assert Num(b) / 256 == Num(front) && Num(b) % 256 == x as nat;
      DigitsNum(front);
    }
  }

  /** Between strings of one length, byte order is numeric order. */
  lemma {:induction false} OrderIsNumeric(a: Bytes, b: Bytes)
    requires |a| == |b|
    ensures LexLt(a, b) <==> Num(a) < Num(b)
    ensures a == b <==> Num(a) == Num(b)
  {
    if a != [] {
      OrderIsNumeric(a[1..], b[1..]);
      NumBound(a[1..]);
      NumBound(b[1..]);
      var p := Pow(|a| - 1);
      LeadingDigit(a[0] as nat, Num(a[1..]), b[0] as nat, Num(b[1..]), p);
      assert a == [a[0]] + a[1..] && b == [b[0]] + b[1..];
    }
  }

  lemma LeadingDigit(d: nat, low: nat, d': nat, low': nat, p: nat)
    requires low < p && low' < p
    ensures d * p + low < d' * p + low' <==> d < d' || (d == d' && low < low')
    ensures d * p + low == d' * p + low' <==> d == d' && low == low'
  {
    if d < d' {
      assert d' * p >= (d + 1) * p == d * p + p;
    } else if d' < d {
      assert d * p >= (d' + 1) * p == d' * p + p;
    }
  }

  lemma SmallMod(v: nat, m: nat)
    requires v < m
    ensures v % m == v
  {
  }

  lemma FitsDigits(n: nat, v: nat)
    requires v < Pow(n)
    ensures Num(Digits(n, v)) == v
  {
    NumDigits(n, v);
    SmallMod(v, Pow(n));
  }

  /** Sorting encodings of one width sorts the numbers. */
  lemma DigitsOrder(n: nat, v: nat, w: nat, a: Bytes, b: Bytes)
    requires v < Pow(n) && w < Pow(n) && a == Digits(n, v) && b == Digits(n, w)
    ensures LexLt(a, b) <==> v < w
  {
    FitsDigits(n, v);
    FitsDigits(n, w);
    OrderIsNumeric(a, b);
  }

  lemma {:induction false} NumZeros(n: nat)
    ensures Num(Zeros(n)) == 0
  {
    if n > 0 {
      assert Zeros(n)[1..] == Zeros(n - 1);
      NumZeros(n - 1);
    }
  }
}

/** TabletIO::FindAverageKey: a split point halfway between two keys, computed by adding
    and halving them as big numbers. */
module AverageKey {
  import opened Bytes
  import opened Numeral

  /** `x` lies strictly between the two keys; an empty `end` is no upper limit. */
  predicate Between(start: Bytes, end: Bytes, x: Bytes) {
    LexLt(start, x) && (end == [] || LexLt(x, end))
  }

  function Pad(x: Bytes, n: nat): (r: Bytes)
    requires |x| <= n
    ensures |r| == n && r[..|x|] == x
  {
    x + Zeros(n - |x|)
  }

  function Filled(n: nat): (r: Bytes)
    ensures |r| == n && forall i :: 0 <= i < n ==> r[i] == 255
  {
    seq(n, i => 255 as Byte)
  }

  /** The upper key used for the sum. */
  function Upper(start: Bytes, end: Bytes): Bytes {
    if end == [] then Filled(|start| + 1) else end
  }

  function Width(start: Bytes, end: Bytes): nat {
    var e := Upper(start, end);
    (if |start| > |e| then |start| else |e|) + 1
  }

  /** floor((start + end) / 2), as a string one byte longer than both keys. */
  function Middle(start: Bytes, end: Bytes): (r: Bytes)
    ensures |r| == Width(start, end)
  {
    var n := Width(start, end);
    Digits(n, (Num(Pad(start, n)) + Num(Pad(Upper(start, end), n))) / 2)
  }

  // ---------- order facts about padded keys ----------

  lemma {:induction false} NothingBelowZeros(x: Bytes, n: nat)
    requires |x| == n
    ensures !LexLt(x, Zeros(n))
  {
    NumZeros(n);
    OrderIsNumeric(x, Zeros(n));
  }

  lemma {:induction false} PrefixBelow(x: Bytes, y: Bytes)
    requires y != []
    ensures LexLt(x, x + y)
    decreases |x|
  {
    if x != [] {
      assert (x + y)[1..] == x[1..] + y;
      PrefixBelow(x[1..], y);
    }
  }

  lemma {:induction false} BelowPadded(x: Bytes, end: Bytes, k: nat)
    requires |x| == |end| + k && LexLt(x, end + Zeros(k))
    ensures LexLt(x, end)
    decreases |end|
  {
    if end == [] {
      assert end + Zeros(k) == Zeros(k);
      NothingBelowZeros(x, k);
    } else {
      assert (end + Zeros(k))[1..] == end[1..] + Zeros(k);
      if x[0] == end[0] { BelowPadded(x[1..], end[1..], k); }
    }
  }

  lemma {:induction false} PaddedOrder(s: Bytes, e: Bytes, n: nat)
    requires LexLt(s, e) && |s| <= n && |e| <= n
    ensures !LexLt(Pad(e, n), Pad(s, n))
    decreases |s|
  {
    if s == [] {
      assert Pad(s, n) == Zeros(n);
      NothingBelowZeros(Pad(e, n), n);
    } else {
      assert Pad(s, n)[1..] == Pad(s[1..], n - 1);
      assert Pad(e, n)[1..] == Pad(e[1..], n - 1);
      if s[0] == e[0] { PaddedOrder(s[1..], e[1..], n - 1); }
    }
  }

  lemma UpperAbove(start: Bytes, end: Bytes)
    requires end == [] || LexLt(start, end)
    ensures LexLt(start, Upper(start, end))
  {
    if end == [] { BelowFilled(start); }
  }

  lemma {:induction false} BelowFilled(s: Bytes)
    ensures LexLt(s, Filled(|s| + 1))
    decreases |s|
  {
    if s != [] {
      assert Filled(|s| + 1)[1..] == Filled(|s|);
      BelowFilled(s[1..]);
    }
  }

  /** Padding makes the keys equal exactly when the upper one only adds zero bytes. */
  lemma PaddedEqual(start: Bytes, end: Bytes, n: nat)
    requires end == [] || LexLt(start, end)
    requires n == Width(start, end)
    ensures Pad(start, n) == Pad(Upper(start, end), n) <==>
            end != [] && |end| >= |start| && end == start + Zeros(|end| - |start|)
  {
    var e := Upper(start, end);
    if end == [] {
      assert Pad(e, n)[|start|] == 255 && Pad(start, n)[|start|] == 0;
    } else {
      if Pad(start, n) == Pad(e, n) {
        if |end| < |start| {
          assert start == end + start[|end|..] by { assert start == Pad(start, n)[..|start|]; }
          PrefixBelow(end, start[|end|..]);
          LexAsym(start, end);
        } else {
          assert end == Pad(start, n)[..|end|] == start + Zeros(|end| - |start|);
        }
      }
      if |end| >= |start| && end == start + Zeros(|end| - |start|) {
        assert Pad(start, n) == Pad(end, n);
      }
    }
  }

  lemma HalfWay(a: nat, b: nat)
    requires a < b && a % 256 == 0 && b % 256 == 0
    ensures a < (a + b) / 2 < b
  {
  }

  lemma MiddleNumeric(start: Bytes, end: Bytes, n: nat)
    requires end == [] || LexLt(start, end)
    requires n == Width(start, end) && Pad(start, n) != Pad(Upper(start, end), n)
    ensures Num(Pad(start, n)) < Num(Middle(start, end)) < Num(Pad(Upper(start, end), n))
  {
    var e := Upper(start, end);
    UpperAbove(start, end);
    PaddedOrder(start, e, n);
    OrderIsNumeric(Pad(start, n), Pad(e, n));
    OrderIsNumeric(Pad(e, n), Pad(start, n));
    LastZero(start, n);
    LastZero(e, n);
    NumBound(Pad(e, n));
    MiddleDigits(Num(Pad(start, n)), Num(Pad(e, n)), n);
  }

  lemma MiddleDigits(a: nat, b: nat, n: nat)
    requires a < b < Pow(n) && a % 256 == 0 && b % 256 == 0
    ensures a < Num(Digits(n, (a + b) / 2)) < b
  {
    HalfWay(a, b);
    FitsDigits(n, (a + b) / 2);
  }

  /** Between two padded keys means between the keys. */
  lemma Squeezed(start: Bytes, e: Bytes, m: Bytes, n: nat)
    requires |start| < n && |e| <= n && |m| == n
    requires Num(Pad(start, n)) < Num(m) < Num(Pad(e, n))
    ensures LexLt(start, m) && LexLt(m, e)
  {
    OrderIsNumeric(Pad(start, n), m);
    OrderIsNumeric(m, Pad(e, n));
    PrefixBelow(start, Zeros(n - |start|));
    LexTrans(start, Pad(start, n), m);
    BelowPadded(m, e, n - |e|);
  }

  /** The middle of two keys that differ lies strictly between them. */
  lemma MiddleBetween(start: Bytes, end: Bytes)
    requires end == [] || LexLt(start, end)
    requires Pad(start, Width(start, end)) != Pad(Upper(start, end), Width(start, end))
    ensures Between(start, end, Middle(start, end))
  {
    var n := Width(start, end);
    MiddleNumeric(start, end, n);
    Squeezed(start, Upper(start, end), Middle(start, end), n);
  }

  lemma LastZero(x: Bytes, n: nat)
    requires |x| < n
    ensures Num(Pad(x, n)) % 256 == 0
  {
    assert Pad(x, n) == Pad(x, n - 1) + [0];
    NumAppend(Pad(x, n - 1), 0);
  }

  // ---------- the two digit loops ----------

  /** A row of digits in an array of unsigned ints. */
  ghost predicate AreDigits(s: seq<nat>) {
    forall i :: 0 <= i < |s| ==> s[i] < 256
  }

  ghost function AsBytes(s: seq<nat>): (r: Bytes)
    requires AreDigits(s)
    ensures |r| == |s|
  {
    seq(|s|, i requires 0 <= i < |s| => s[i] as Byte)
  }

  lemma AddDigit(x: nat, y: nat, c: nat, d: nat, c': nat, low: nat, sx: nat, sy: nat, p: nat)
    requires x + y + c == c' * 256 + d
    requires low + c * p == sx + sy
    ensures d * p + low + c' * (256 * p) == (x * p + sx) + (y * p + sy)
  {
    assert (x + y + c) * p == (c' * 256 + d) * p;
    assert (x + y + c) * p == x * p + y * p + c * p;
    assert (c' * 256 + d) * p == c' * (256 * p) + d * p;
  }

  /** One digit of the addition: `low` are the digits of the sum behind it. */
  lemma AddTurn(s: Bytes, e: Bytes, i: nat, low: seq<nat>, c: nat, d: nat, c': nat)
    requires i < |s| == |e| && |low| == |s| - i - 1 && AreDigits(low) && d < 256
    requires s[i] as nat + e[i] as nat + c == c' * 256 + d
    requires Num(AsBytes(low)) + c * Pow(|s| - i - 1) == Num(s[i + 1..]) + Num(e[i + 1..])
    ensures AreDigits([d] + low)
    ensures Num(AsBytes([d] + low)) + c' * Pow(|s| - i) == Num(s[i..]) + Num(e[i..])
  {
    var p := Pow(|s| - i - 1);
    AddDigit(s[i] as nat, e[i] as nat, c, d, c', Num(AsBytes(low)), Num(s[i + 1..]), Num(e[i + 1..]), p);
    assert s[i..][1..] == s[i + 1..] && e[i..][1..] == e[i + 1..];
    assert AsBytes([d] + low)[1..] == AsBytes(low);
  }

  /** Schoolbook addition from the last digit to the first. */
  method AddDigits(s: Bytes, e: Bytes, carry: array<nat>, sum: array<nat>)
    requires |s| == |e| == sum.Length && carry.Length == |s| + 1 && carry != sum
    modifies carry, sum
    ensures AreDigits(sum[..]) && carry[0] <= 1
    ensures carry[0] * Pow(|s|) + Num(AsBytes(sum[..])) == Num(s) + Num(e)
  {
    var n := |s|;
    carry[n] := 0;
    var i := n;
    assert sum[n..] == [] && s[n..] == [] && e[n..] == [];
    while i > 0
      invariant 0 <= i <= n
      invariant carry[i] <= 1 && AreDigits(sum[i..])
      invariant Num(AsBytes(sum[i..])) + carry[i] * Pow(n - i) == Num(s[i..]) + Num(e[i..])
    {
      i := i - 1;
      ghost var low := sum[i + 1..];
      var total := s[i] as nat + e[i] as nat + carry[i + 1];
      sum[i] := total;
      carry[i] := sum[i] / 256;
      sum[i] := sum[i] % 256;
      assert sum[i + 1..] == low;
      assert sum[i..] == [sum[i]] + low;
      AddTurn(s, e, i, low, carry[i + 1], sum[i], carry[i]);
    }
    assert sum[0..] == sum[..] && s[0..] == s && e[0..] == e;
  }

  lemma HalveDigit(q: nat, c: nat, d: nat, x: nat)
    requires 2 * q + c == d
    ensures 2 * (q * 256 + (x + c * 256) / 2) + (x + c * 256) % 2 == d * 256 + x
  {
  }

  lemma AsBytesSnoc(s: seq<nat>, i: nat)
    requires i < |s| && AreDigits(s[..i + 1])
    ensures AreDigits(s[..i]) && AsBytes(s[..i + 1]) == AsBytes(s[..i]) + [s[i] as Byte]
  {
    assert s[..i + 1][..i] == s[..i];
  }

  /** The number that the first `i` digits stand for, with the carry in front. */
  ghost function Prefix(c: nat, digits: seq<nat>, i: nat): nat
    requires i <= |digits|
  {
    if i == 0 then c else Prefix(c, digits, i - 1) * 256 + digits[i - 1]
  }

  lemma ShiftDigits(c: nat, p: nat, num: nat, x: nat)
    ensures (c * p + num) * 256 + x == c * (256 * p) + (num * 256 + x)
  {
    assert c * (256 * p) == c * p * 256;
  }

  lemma NumSnoc(digits: seq<nat>, i: nat)
    requires i < |digits| && AreDigits(digits)
    ensures AreDigits(digits[..i]) && AreDigits(digits[..i + 1])
    ensures Num(AsBytes(digits[..i + 1])) == Num(AsBytes(digits[..i])) * 256 + digits[i]
  {
    AsBytesSnoc(digits, i);
    NumAppend(AsBytes(digits[..i]), digits[i] as Byte);
  }

  lemma {:induction false} PrefixIsNum(c: nat, digits: seq<nat>, i: nat)
    requires i <= |digits| && AreDigits(digits)
    ensures AreDigits(digits[..i]) && Prefix(c, digits, i) == c * Pow(i) + Num(AsBytes(digits[..i]))
  {
    if i > 0 {
      var m: nat := i - 1;
      PrefixIsNum(c, digits, m);
      NumSnoc(digits, m);
      ShiftDigits(c, Pow(m), Num(AsBytes(digits[..m])), digits[m]);
    }
  }

  /** Long division by two from the first digit to the last. */
  method HalveDigits(carry: array<nat>, sum: array<nat>)
    requires carry.Length == sum.Length + 1 && carry != sum
    requires AreDigits(sum[..]) && carry[0] <= 1
    modifies carry, sum
    ensures AreDigits(sum[..])
    ensures Num(AsBytes(sum[..])) == (old(carry[0]) * Pow(sum.Length) + Num(AsBytes(old(sum[..])))) / 2
  {
    var n := sum.Length;
    ghost var c0, digits := carry[0], sum[..];
    for i := 1 to n + 1
      invariant carry[0] == c0 && sum[..] == digits
    {
      carry[i] := 0;
    }
    var i := 0;
    assert AsBytes(sum[..0]) == [];
    while i < n
      invariant 0 <= i <= n
      invariant carry[i] <= 1 && AreDigits(sum[..i]) && sum[i..] == digits[i..]
      invariant 2 * Num(AsBytes(sum[..i])) + carry[i] == Prefix(c0, digits, i)
    {
      ghost var done := sum[..i];
      ghost var q := Num(AsBytes(done));
      var x := sum[i];
      assert x == digits[i];
      carry[i + 1] := (sum[i] + carry[i] * 256) % 2;
      sum[i] := (sum[i] + carry[i] * 256) / 2;
      HalveDigit(q, carry[i], Prefix(c0, digits, i), x);
      assert sum[..i] == done;
      assert sum[..i + 1] == done + [sum[i]];
      AsBytesSnoc(sum[..], i);
      assert sum[..][..i] == done && sum[..][..i + 1] == sum[..i + 1];
      NumAppend(AsBytes(done), sum[i] as Byte);
      i := i + 1;
    }
    PrefixIsNum(c0, digits, n);
    assert digits[..n] == digits && sum[..n] == sum[..];
  }

  // ---------- the method ----------

  /** False exactly when nothing lies between the keys because `end` is `start` followed
      by zero bytes.  Otherwise the shortest prefix of the middle that lies between. */
  method FindAverageKey(start: Bytes, end: Bytes) returns (found: bool, res: Bytes)
    requires end == [] || LexLt(start, end)
    ensures !found <==> end != [] && |end| >= |start| && end == start + Zeros(|end| - |start|)
    ensures found ==> Between(start, end, res) && res <= Middle(start, end)
    ensures found ==> forall k :: 0 <= k < |res| ==> !Between(start, end, res[..k])
  {
    var e := if end == [] then Filled(|start| + 1) else end;
    var n := (if |start| > |e| then |start| else |e|) + 1;
    var s' := start + Zeros(n - |start|);
    var e' := e + Zeros(n - |e|);
    PaddedEqual(start, end, n);
    if s' == e' {
      return false, [];
    }
    var sum := Average(s', e');
    MiddleIs(start, end, AsBytes(sum[..]));
    MiddleBetween(start, end);
    res := AppendUntilBetween(start, end, sum, AsBytes(sum[..]));
    found := true;
  }

  lemma MiddleIs(start: Bytes, end: Bytes, b: Bytes)
    requires |b| == Width(start, end)
    requires Num(b) == (Num(Pad(start, |b|)) + Num(Pad(Upper(start, end), |b|))) / 2
    ensures b == Middle(start, end)
  {
    DigitsNum(b);
  }

  /** Big-number add, then divide by two. */
  method Average(s: Bytes, e: Bytes) returns (sum: array<nat>)
    requires |s| == |e|
    ensures fresh(sum) && sum.Length == |s| && AreDigits(sum[..])
    ensures Num(AsBytes(sum[..])) == (Num(s) + Num(e)) / 2
  {
    var n := |s|;
    var carry := new nat[n + 1];
    sum := new nat[n];
    AddDigits(s, e, carry, sum);
    HalveDigits(carry, sum);
  }

  method AppendUntilBetween(start: Bytes, end: Bytes, sum: array<nat>, ghost middle: Bytes) returns (res: Bytes)
    requires AreDigits(sum[..]) && AsBytes(sum[..]) == middle && Between(start, end, middle)
    ensures Between(start, end, res) && res <= middle
    ensures forall k :: 0 <= k < |res| ==> !Between(start, end, res[..k])
  {
    res := [];
    var i := 0;
    while i < sum.Length && !(LexLt(start, res) && (end == [] || LexLt(res, end)))
      invariant 0 <= i <= sum.Length && |res| == i && res == middle[..i]
      invariant forall k :: 0 <= k < i ==> !Between(start, end, middle[..k])
    {
      assert middle[..i + 1] == middle[..i] + [middle[i]];
      res := res + [sum[i] as Byte];
      i := i + 1;
    }
    assert i == sum.Length ==> middle[..i] == middle;
    assert forall k :: 0 <= k < i ==> res[..k] == middle[..k];
  }
}

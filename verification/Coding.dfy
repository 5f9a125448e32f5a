/** The big-endian integer codec of the store: 32- and 64-bit, unsigned and signed. */
module Coding {
  import opened Bytes
  import opened Numeral

  const TWO_8 := 0x100
  const TWO_16 := 0x1_0000
  const TWO_24 := 0x100_0000
  const TWO_32 := 0x1_0000_0000
  const TWO_40 := 0x100_0000_0000
  const TWO_48 := 0x1_0000_0000_0000
  const TWO_56 := 0x100_0000_0000_0000
  const TWO_63 := 0x8000_0000_0000_0000
  const TWO_64 := 0x1_0000_0000_0000_0000

  /** Byte `k` of a value, as `(value >> 8k) & 0xff` extracts it. */
  function ByteAt(value: nat, shift: nat): Byte
    requires shift > 0
  {
    (value / shift % 256) as Byte
  }

  method EncodeBigEndian32(buf: array<Byte>, at: nat, value: nat)
    requires at + 4 <= buf.Length && value < TWO_32
    modifies buf
    ensures buf[..] == old(buf[..at]) + Digits(4, value) + old(buf[at + 4..])
  {
    buf[at] := ByteAt(value, TWO_24);
    buf[at + 1] := ByteAt(value, TWO_16);
    buf[at + 2] := ByteAt(value, TWO_8);
    buf[at + 3] := ByteAt(value, 1);
    Digits4(value);
    assert buf[at..at + 4] == Digits(4, value);
    assert buf[..] == buf[..at] + buf[at..at + 4] + buf[at + 4..];
  }

  method EncodeBigEndian(buf: array<Byte>, at: nat, value: nat)
    requires at + 8 <= buf.Length && value < TWO_64
    modifies buf
    ensures buf[..] == old(buf[..at]) + Digits(8, value) + old(buf[at + 8..])
  {
    buf[at] := ByteAt(value, TWO_56);
    buf[at + 1] := ByteAt(value, TWO_48);
    buf[at + 2] := ByteAt(value, TWO_40);
    buf[at + 3] := ByteAt(value, TWO_32);
    buf[at + 4] := ByteAt(value, TWO_24);
    buf[at + 5] := ByteAt(value, TWO_16);
    buf[at + 6] := ByteAt(value, TWO_8);
    buf[at + 7] := ByteAt(value, 1);
    Digits8(value);
    assert buf[at..at + 8] == Digits(8, value);
    assert buf[..] == buf[..at] + buf[at..at + 8] + buf[at + 8..];
  }

  lemma DigitsStep(n: nat, v: nat)
    ensures Digits(n + 1, v) == Digits(n, v / 256) + [(v % 256) as Byte]
  {
  }

  lemma Digits4(value: nat)
    ensures Digits(4, value) ==
            [ByteAt(value, TWO_24), ByteAt(value, TWO_16), ByteAt(value, TWO_8), ByteAt(value, 1)]
  {
    var v1 := value / 256;
    var v2 := v1 / 256;
    var v3 := v2 / 256;
    assert v2 == value / TWO_16 && v3 == value / TWO_24;
    DigitsStep(3, value);
    DigitsStep(2, v1);
    DigitsStep(1, v2);
    DigitsStep(0, v3);
  }

  lemma Digits8(value: nat)
    ensures Digits(8, value) ==
            [ByteAt(value, TWO_56), ByteAt(value, TWO_48), ByteAt(value, TWO_40), ByteAt(value, TWO_32),
             ByteAt(value, TWO_24), ByteAt(value, TWO_16), ByteAt(value, TWO_8), ByteAt(value, 1)]
  {
    var high := value / TWO_32;
    Digits4(value);
    Digits4(high);
    DigitsSplit(value);
    assert high / TWO_24 == value / TWO_56 && high / TWO_16 == value / TWO_48;
    assert high / TWO_8 == value / TWO_40 && high / 1 == value / TWO_32;
  }

  lemma DigitsSplit(value: nat)
    ensures Digits(8, value) == Digits(4, value / TWO_32) + Digits(4, value)
  {
    var v1 := value / 256;
    var v2 := v1 / 256;
    var v3 := v2 / 256;
    var v4 := v3 / 256;
    assert v2 == value / TWO_16 && v3 == value / TWO_24 && v4 == value / TWO_32;
    DigitsStep(7, value);
    DigitsStep(6, v1);
    DigitsStep(5, v2);
    DigitsStep(4, v3);
    DigitsStep(3, value);
    DigitsStep(2, v1);
    DigitsStep(1, v2);
    DigitsStep(0, v3);
  }

  function DecodeBigEndian32(p: Bytes): (r: nat)
    requires |p| >= 4
    ensures r == Num(p[..4])
  {
    Num4(p[..4]);
    p[3] as nat + p[2] as nat * TWO_8 + p[1] as nat * TWO_16 + p[0] as nat * TWO_24
  }

  function DecodeBigEndian(p: Bytes): (r: nat)
    requires |p| >= 8
    ensures r == Num(p[..8]) && r < TWO_64
  {
    var lo := DecodeBigEndian32(p[4..]);
    var hi := DecodeBigEndian32(p);
    Num8(p[..8]);
    assert p[4..][..4] == p[..8][4..] && p[..4] == p[..8][..4];
    hi * TWO_32 + lo
  }

  /** The sign bit of the first byte makes the four-byte value negative. */
  function DecodeBigEndian32Sign(p: Bytes): (r: int)
    requires |p| >= 4
    ensures -0x8000_0000 <= r < 0x8000_0000
    ensures r == Num(p[..4]) || r == Num(p[..4]) - TWO_32
  {
    Num4(p[..4]);
    var top := if p[0] >= 128 then p[0] as int - 256 else p[0] as int;
    p[3] as int + p[2] as int * TWO_8 + p[1] as int * TWO_16 + top * TWO_24
  }

  function DecodeBigEndianSign(p: Bytes): (r: int)
    requires |p| >= 8
    ensures -TWO_63 <= r < TWO_63
    ensures r == Num(p[..8]) || r == Num(p[..8]) - TWO_64
  {
    var lo := DecodeBigEndian32(p[4..]);
    var hi := DecodeBigEndian32Sign(p);
    Num8(p[..8]);
    assert p[4..][..4] == p[..8][4..] && p[..4] == p[..8][..4];
    NumBound(p[..4]);
    assert Num(p[4..][..4]) < TWO_32 by { Num4(p[4..][..4]); }
    hi * TWO_32 + lo
  }

  lemma PowValues()
    ensures Pow(0) == 1 && Pow(1) == TWO_8 && Pow(2) == TWO_16 && Pow(3) == TWO_24 && Pow(4) == TWO_32
    ensures Pow(8) == TWO_64
  {
    assert Pow(1) == 256 * Pow(0);
    assert Pow(2) == 256 * Pow(1);
    assert Pow(3) == 256 * Pow(2);
    assert Pow(4) == 256 * Pow(3);
    assert Pow(5) == 256 * Pow(4);
    assert Pow(6) == 256 * Pow(5);
    assert Pow(7) == 256 * Pow(6);
    assert Pow(8) == 256 * Pow(7);
  }

  lemma Num4(b: Bytes)
    requires |b| == 4
    ensures Num(b) == b[3] as nat + b[2] as nat * TWO_8 + b[1] as nat * TWO_16 + b[0] as nat * TWO_24
    ensures Num(b) < TWO_32
  {
    PowValues();
    NumBound(b);
    assert b[1..][1..] == b[2..] && b[2..][1..] == b[3..] && b[3..][1..] == [];
    assert Num(b) == b[0] as nat * Pow(3) + Num(b[1..]);
    assert Num(b[1..]) == b[1] as nat * Pow(2) + Num(b[2..]);
    assert Num(b[2..]) == b[2] as nat * Pow(1) + Num(b[3..]);
    assert Num(b[3..]) == b[3] as nat * Pow(0) + Num([]);
  }

  lemma Num8(b: Bytes)
    requires |b| == 8
    ensures Num(b) == Num(b[..4]) * TWO_32 + Num(b[4..])
    ensures Num(b) < TWO_64
  {
    PowValues();
    NumBound(b);
    var c4 := b[..4];
    var c5, c6, c7 := b[..5], b[..6], b[..7];
    assert c5 == c4 + [b[4]] && c6 == c5 + [b[5]] && c7 == c6 + [b[6]] && b == c7 + [b[7]];
    NumAppend(c4, b[4]);
    NumAppend(c5, b[5]);
    NumAppend(c6, b[6]);
    NumAppend(c7, b[7]);
    Num4(b[4..]);
  }

  /** Decoding inverts encoding for every unsigned and every signed 64-bit value. */
  lemma RoundTrip(value: nat)
    requires value < TWO_64
    ensures DecodeBigEndian(Digits(8, value)) == value
    ensures DecodeBigEndianSign(Digits(8, value)) == if value < TWO_63 then value else value - TWO_64
  {
    PowValues();
    NumDigits(8, value);
    assert Digits(8, value)[..8] == Digits(8, value);
  }

  /** Encoding inverts decoding for every eight-byte string. */
  lemma RoundTripBytes(b: Bytes)
    requires |b| == 8
    ensures Digits(8, DecodeBigEndian(b)) == b
  {
    DigitsNum(b);
    assert b[..8] == b;
  }

  /** Sorting encoded keys sorts the numbers. */
  lemma EncodedOrder(v: nat, w: nat)
    requires v < TWO_64 && w < TWO_64
    ensures LexLt(Digits(8, v), Digits(8, w)) <==> v < w
  {
    PowValues();
    DigitsOrder(8, v, w, Digits(8, v), Digits(8, w));
  }
}

/** The meta table backup file: length-prefixed records, written one after another and read
    back until the end. */
module MetaBackup {
  import opened Bytes
  import opened Collections

  const TWO_32 := 0x1_0000_0000

  datatype Record = Record(key: Bytes, value: Bytes)

  /** The four bytes of a uint32_t in memory, lowest first. */
  function SizeBytes(n: nat): (r: Bytes)
    requires n < TWO_32
    ensures |r| == 4
  {
    [(n % 256) as Byte, (n / 256 % 256) as Byte, (n / 65536 % 256) as Byte, (n / 16777216) as Byte]
  }

  function SizeOf(b: Bytes): (n: nat)
    requires |b| == 4
    ensures n < TWO_32
  {
    b[0] as nat + 256 * (b[1] as nat) + 65536 * (b[2] as nat) + 16777216 * (b[3] as nat)
  }

  lemma SizeRoundTrip(n: nat)
    requires n < TWO_32
    ensures SizeOf(SizeBytes(n)) == n
  {
    assert n == n % 256 + 256 * (n / 256);
    assert n / 256 == n / 256 % 256 + 256 * (n / 65536);
    assert n / 65536 == n / 65536 % 256 + 256 * (n / 16777216);
  }

  lemma LowByte(x: nat, q: nat)
    requires x < 256
    ensures (x + 256 * q) % 256 == x && (x + 256 * q) / 256 == q
  {
  }

  lemma BytesRoundTrip(b: Bytes)
    requires |b| == 4
    ensures SizeBytes(SizeOf(b)) == b
  {
    var n, b0, b1, b2, b3 := SizeOf(b), b[0] as nat, b[1] as nat, b[2] as nat, b[3] as nat;
    LowByte(b0, b1 + 256 * b2 + 65536 * b3);
    LowByte(b1, b2 + 256 * b3);
    LowByte(b2, b3);
    assert n / 65536 == n / 256 / 256 && n / 16777216 == n / 256 / 256 / 256;
  }

  predicate Fits(x: Record) {
    |x.key| < TWO_32 && |x.value| < TWO_32
  }

  function RecordSize(x: Record): nat {
    8 + |x.key| + |x.value|
  }

  function Encode(x: Record): (r: Bytes)
    requires Fits(x)
    ensures |r| == RecordSize(x)
  {
    SizeBytes(|x.key|) + x.key + SizeBytes(|x.value|) + x.value
  }

  /** Where the parts of a record lie in the file: the key's length, lowest byte first, the
      key, the value's length, the value. */
  lemma Layout(x: Record, rest: Bytes)
    requires Fits(x)
    ensures var r, k := Encode(x) + rest, |x.key|;
            && SizeOf(r[..4]) == k && r[0] as nat == k % 256 && r[4..4 + k] == x.key
            && SizeOf(r[4 + k..8 + k]) == |x.value| && r[8 + k..8 + k + |x.value|] == x.value
            && r[8 + k + |x.value|..] == rest
  {
    var r, k := Encode(x) + rest, |x.key|;
    SizeRoundTrip(k);
    SizeRoundTrip(|x.value|);
    assert r[..4] == SizeBytes(k);
    assert r[4 + k..8 + k] == SizeBytes(|x.value|);
  }

  predicate AllFit(xs: seq<Record>) {
    forall i :: 0 <= i < |xs| ==> Fits(xs[i])
  }

  function File(xs: seq<Record>): Bytes
    requires AllFit(xs)
  {
    if xs == [] then [] else Encode(xs[0]) + File(xs[1..])
  }

  lemma {:induction false} FileSnoc(xs: seq<Record>, x: Record)
    requires AllFit(xs) && Fits(x)
    ensures AllFit(xs + [x]) && File(xs + [x]) == File(xs) + Encode(x)
  {
    if xs == [] {
      assert xs + [x] == [x] && [x][1..] == [];
      assert File([x]) == Encode(x) + [];
    } else {
      FileSnoc(xs[1..], x);
      assert (xs + [x])[1..] == xs[1..] + [x];
    }
  }

  class OutStream {
    var data: Bytes

    constructor ()
      ensures data == []
    {
      data := [];
    }

    method WriteToStream(key: Bytes, value: Bytes)
      requires Fits(Record(key, value))
      modifies this
      ensures data == old(data) + Encode(Record(key, value))
    {
      data := data + SizeBytes(|key|);
      data := data + key;
      data := data + SizeBytes(|value|);
      data := data + value;
    }
  }

  method WriteAll(xs: seq<Record>) returns (data: Bytes)
    requires AllFit(xs)
    ensures data == File(xs)
  {
    var ofs := new OutStream();
    var i := 0;
    while i < |xs|
      invariant 0 <= i <= |xs| && ofs.data == File(xs[..i])
    {
      FileSnoc(xs[..i], xs[i]);
      assert xs[..i + 1] == xs[..i] + [xs[i]];
      ofs.WriteToStream(xs[i].key, xs[i].value);
      i := i + 1;
    }
    assert xs[..|xs|] == xs;
    data := ofs.data;
  }

  // ---------- reading ----------

  /** A size and that many bytes, and what follows them. */
  function TakeSized(b: Bytes): Option<(Bytes, Bytes)> {
    if |b| < 4 then None
    else
      var n := SizeOf(b[..4]);
      if |b| < 4 + n then None else Some((b[4..4 + n], b[4 + n..]))
  }

  lemma TakesSized(x: Bytes, rest: Bytes)
    requires |x| < TWO_32
    ensures TakeSized(SizeBytes(|x|) + x + rest) == Some((x, rest))
  {
    var size := SizeBytes(|x|);
    var b := size + x + rest;
    SizeRoundTrip(|x|);
    assert b[..4] == size && b[4..4 + |x|] == x && b[4 + |x|..] == rest;
  }

  lemma SizedTaken(b: Bytes)
    ensures var t := TakeSized(b);
            t.Some? ==> |t.value.0| < TWO_32 && b == SizeBytes(|t.value.0|) + t.value.0 + t.value.1
  {
    if TakeSized(b).Some? {
      BytesRoundTrip(b[..4]);
      var n := SizeOf(b[..4]);
      assert b == b[..4] + b[4..4 + n] + b[4 + n..];
    }
  }

  datatype Decoded = End | Broken | Got(x: Record, rest: Bytes)

  function Decode(b: Bytes): (d: Decoded)
    ensures d.Got? ==> |d.rest| < |b|
  {
    if b == [] then End
    else match TakeSized(b)
      case None => Broken
      case Some(k) =>
        match TakeSized(k.1)
        case None => Broken
        case Some(v) => Got(Record(k.0, v.0), v.1)
  }

  lemma DecodeEncode(x: Record, rest: Bytes)
    requires Fits(x)
    ensures Decode(Encode(x) + rest) == Got(x, rest)
  {
    var tail := SizeBytes(|x.value|) + x.value + rest;
    assert Encode(x) + rest == SizeBytes(|x.key|) + x.key + tail;
    TakesSized(x.key, tail);
    TakesSized(x.value, rest);
  }

  lemma EncodeDecode(b: Bytes)
    ensures var d := Decode(b); d.Got? ==> Fits(d.x) && b == Encode(d.x) + d.rest
  {
    if Decode(b).Got? {
      var k := TakeSized(b).value;
      SizedTaken(b);
      SizedTaken(k.1);
    }
  }

  /** The records up to the end or the first empty key, and whether that was reached. */
  function Records(b: Bytes): (seq<Record>, bool)
    decreases |b|
  {
    match Decode(b)
    case End => ([], true)
    case Broken => ([], false)
    case Got(x, rest) =>
      if x.key == [] then ([], true)
      else
        var (xs, ok) := Records(rest);
        ([x] + xs, ok)
  }

  class InStream {
    const data: Bytes
    var pos: nat

    ghost predicate Valid()
      reads this
    {
      pos <= |data|
    }

    ghost function Rest(): Bytes
      requires Valid()
      reads this
    {
      data[pos..]
    }

    constructor (data: Bytes)
      ensures Valid() && Rest() == data
    {
      this.data := data;
      pos := 0;
    }

    /** The bytes asked for, or what is left and a failed stream. */
    method Read(n: nat) returns (ok: bool, b: Bytes)
      requires Valid()
      modifies this
      ensures Valid() && (ok <==> n <= |old(Rest())|)
      ensures ok ==> b == old(Rest())[..n] && Rest() == old(Rest())[n..]
      ensures !ok ==> b == old(Rest()) && Rest() == []
    {
      if n <= |data| - pos {
        b := data[pos..pos + n];
        pos := pos + n;
        return true, b;
      }
      b := data[pos..];
      pos := |data|;
      return false, b;
    }

    /** A size and that many bytes; `atEnd` if there was nothing left to read. */
    method ReadSized() returns (ok: bool, atEnd: bool, b: Bytes)
      requires Valid()
      modifies this
      ensures Valid() && (atEnd <==> old(Rest()) == [])
      ensures ok <==> TakeSized(old(Rest())).Some?
      ensures ok ==> TakeSized(old(Rest())) == Some((b, Rest()))
    {
      ghost var all := Rest();
      var sizeOk, size := Read(4);
      atEnd := !sizeOk && size == [];
      if !sizeOk {
        return false, atEnd, [];
      }
      var n := SizeOf(size);
      assert |all| >= 4 + n ==> all[4..][..n] == all[4..4 + n] && all[4..][n..] == all[4 + n..];
      ok, b := Read(n);
    }

    /** False on a broken record; an empty key at the end of the file. */
    method ReadMetaFromStream() returns (ok: bool, key: Bytes, value: Bytes)
      requires Valid()
      modifies this
      ensures Valid()
      ensures match Decode(old(Rest()))
              case End => ok && key == [] && value == []
              case Broken => !ok
              case Got(x, rest) => ok && key == x.key && value == x.value && Rest() == rest
    {
      value := [];
      var atEnd;
      ok, atEnd, key := ReadSized();
      if atEnd {
        return true, [], [];
      }
      if !ok {
        return;
      }
      ok, atEnd, value := ReadSized();
    }
  }

  /** The records of `data` are `xs` and those of `rest`. */
  ghost predicate ReadsOn(data: Bytes, xs: seq<Record>, rest: Bytes) {
    Records(data).0 == xs + Records(rest).0 && Records(data).1 == Records(rest).1
  }

  lemma ReadsNext(data: Bytes, xs: seq<Record>, b: Bytes)
    requires ReadsOn(data, xs, b)
    ensures match Decode(b)
            case End => Records(data) == (xs, true)
            case Broken => Records(data) == (xs, false)
            case Got(x, rest) =>
              if x.key == [] then Records(data) == (xs, true)
              else ReadsOn(data, xs + [x], rest)
  {
    assert xs + [] == xs;
    var d := Decode(b);
    if d.Got? && d.x.key != [] {
      var more := Records(d.rest).0;
      assert xs + ([d.x] + more) == (xs + [d.x]) + more;
    }
  }

  /** ReadMetaTabletFromFile's loop: every record up to the end signal, or an error. */
  method ReadAll(data: Bytes) returns (xs: seq<Record>, ok: bool)
    ensures (xs, ok) == Records(data)
  {
    var ifs := new InStream(data);
    xs := [];
    assert [] + Records(data).0 == Records(data).0;
    while true
      invariant ifs.Valid()
      invariant ReadsOn(data, xs, ifs.Rest())
      decreases |ifs.Rest()|
    {
      var key, value;
      ReadsNext(data, xs, ifs.Rest());
      ok, key, value := ifs.ReadMetaFromStream();
      if !ok {
        return xs, false;
      }
      if key == [] {
        return xs, true;
      }
      xs := xs + [Record(key, value)];
    }
  }

  // ---------- round trips ----------

  /** The records before the first one with an empty key. */
  function UpToEmpty(xs: seq<Record>): seq<Record> {
    if xs == [] || xs[0].key == [] then [] else [xs[0]] + UpToEmpty(xs[1..])
  }

  lemma {:induction false} ReadBack(xs: seq<Record>)
    requires AllFit(xs)
    ensures Records(File(xs)) == (UpToEmpty(xs), true)
  {
    if xs != [] {
      DecodeEncode(xs[0], File(xs[1..]));
      ReadBack(xs[1..]);
    }
  }

  lemma {:induction false} UpToEmptyIff(xs: seq<Record>)
    ensures UpToEmpty(xs) == xs <==> forall i :: 0 <= i < |xs| ==> xs[i].key != []
  {
    if xs != [] {
      UpToEmptyIff(xs[1..]);
      assert xs == [xs[0]] + xs[1..];
    }
  }

  /** A backup reads back as it was written if and only if no record has an empty key. */
  lemma RoundTripIff(xs: seq<Record>)
    requires AllFit(xs)
    ensures Records(File(xs)) == (xs, true) <==> forall i :: 0 <= i < |xs| ==> xs[i].key != []
  {
    ReadBack(xs);
    UpToEmptyIff(xs);
  }

  lemma FirstRecord(x: Record, rest: Bytes)
    requires Fits(x) && x.key != []
    ensures Records(Encode(x) + rest) == WithFirst(x, Records(rest))
  {
    DecodeEncode(x, rest);
  }

  function WithFirst(x: Record, read: (seq<Record>, bool)): (seq<Record>, bool) {
    ([x] + read.0, read.1)
  }

  lemma FileThen(xs: seq<Record>, tail: Bytes)
    requires AllFit(xs) && xs != [] && xs[0].key != []
    ensures Records(File(xs) + tail) == WithFirst(xs[0], Records(File(xs[1..]) + tail))
  {
    assert File(xs) + tail == Encode(xs[0]) + (File(xs[1..]) + tail);
    FirstRecord(xs[0], File(xs[1..]) + tail);
  }

  lemma {:induction false} BrokenTail(xs: seq<Record>, tail: Bytes)
    requires AllFit(xs) && (forall i :: 0 <= i < |xs| ==> xs[i].key != []) && Records(tail) == ([], false)
    ensures Records(File(xs) + tail) == (xs, false)
  {
    if xs == [] {
      assert File(xs) + tail == tail;
    } else {
      BrokenTail(xs[1..], tail);
      FileThen(xs, tail);
      assert [xs[0]] + xs[1..] == xs;
    }
  }

  /** A file torn inside a record gives back the records before the tear and an error. */
  lemma TornFile(xs: seq<Record>, x: Record, n: nat)
    requires AllFit(xs) && (forall i :: 0 <= i < |xs| ==> xs[i].key != []) && Fits(x) && 0 < n < RecordSize(x)
    ensures Records(File(xs) + Encode(x)[..n]) == (xs, false)
  {
    TornRecord(x, [], n);
    assert Encode(x) + [] == Encode(x);
    BrokenTail(xs, Encode(x)[..n]);
  }

  lemma TornRecord(x: Record, rest: Bytes, n: nat)
    requires Fits(x) && 0 < n < RecordSize(x)
    ensures Decode((Encode(x) + rest)[..n]).Broken?
  {
    var k, v := SizeBytes(|x.key|), SizeBytes(|x.value|);
    var b := (Encode(x) + rest)[..n];
    if n < 4 + |x.key| {
      TornSized(x.key, v + x.value + rest, n);
      assert b == (k + x.key + (v + x.value + rest))[..n];
    } else {
      var m := n - 4 - |x.key|;
      var tail := (v + x.value + rest)[..m];
      TornSized(x.value, rest, m);
      TakesSized(x.key, tail);
      assert b == k + x.key + tail;
    }
  }

  lemma TornSized(x: Bytes, rest: Bytes, n: nat)
    requires |x| < TWO_32 && n < 4 + |x|
    ensures TakeSized((SizeBytes(|x|) + x + rest)[..n]).None?
  {
    var size := SizeBytes(|x|);
    var b := (size + x + rest)[..n];
    SizeRoundTrip(|x|);
    assert n >= 4 ==> b[..4] == size;
  }
}

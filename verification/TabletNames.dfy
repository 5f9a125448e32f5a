/** Names for the tablets that a meta repair adds: the names of tablets whose manifest cannot
    be read, then numbers beyond the largest in use. */
module TabletNames {
  import opened Bytes

  /** std::to_string. */
  function Decimal(n: nat): (r: Bytes)
    ensures |r| >= 1
  {
    if n < 10 then [(48 + n) as Byte] else Decimal(n / 10) + [(48 + n % 10) as Byte]
  }

  ghost function Value(s: Bytes): int {
    if s == [] then 0 else Value(s[..|s| - 1]) * 10 + s[|s| - 1] as int - 48
  }

  lemma ValueSnoc(s: Bytes, b: Byte)
    ensures Value(s + [b]) == Value(s) * 10 + b as int - 48
  {
    assert (s + [b])[..|s|] == s;
  }

  lemma {:induction false} DecimalValue(n: nat)
    ensures Value(Decimal(n)) == n
  {
    if n < 10 {
      ValueSnoc([], (48 + n) as Byte);
      assert [] + [(48 + n) as Byte] == Decimal(n);
    } else {
      DecimalValue(n / 10);
      ValueSnoc(Decimal(n / 10), (48 + n % 10) as Byte);
    }
  }

  lemma {:induction false} LeadingZero(s: Bytes)
    ensures Value([48] + s) == Value(s)
  {
    if s == [] {
      assert [48] + s == [] + [48];
      ValueSnoc([], 48);
    } else {
      var front := s[..|s| - 1];
      LeadingZero(front);
      ValueSnoc([48] + front, s[|s| - 1]);
      assert [48] + s == [48] + front + [s[|s| - 1]];
    }
  }

  const NUM_LEN := 8
  const TABLET: Bytes := [116, 97, 98, 108, 101, 116]

  /** Zeros in front, up to the width of a tablet number. */
  function Padded(s: Bytes): Bytes
    decreases NUM_LEN - |s|
  {
    if |s| >= NUM_LEN then s else Padded([48] + s)
  }

  lemma {:induction false} PaddedValue(s: Bytes)
    ensures Value(Padded(s)) == Value(s)
    decreases NUM_LEN - |s|
  {
    if |s| < NUM_LEN {
      PaddedValue([48] + s);
      LeadingZero(s);
    }
  }

  function TabletName(n: nat): Bytes {
    TABLET + Padded(Decimal(n))
  }

  /** Different numbers, different names, also beyond eight digits. */
  lemma NamesDiffer(m: nat, n: nat)
    requires TabletName(m) == TabletName(n)
    ensures m == n
  {
    assert TabletName(m)[6..] == Padded(Decimal(m));
    assert TabletName(n)[6..] == Padded(Decimal(n));
    PaddedValue(Decimal(m));
    PaddedValue(Decimal(n));
    DecimalValue(m);
    DecimalValue(n);
  }

  predicate Digit(b: Byte) {
    48 <= b <= 57
  }

  /** The digits of a name, up to the first other byte. */
  function Leading(s: Bytes): (r: Bytes)
    ensures |r| <= |s| && r == s[..|r|] && (forall b :: b in r ==> Digit(b))
    ensures |r| < |s| ==> !Digit(s[|r|])
  {
    if s == [] || !Digit(s[0]) then [] else [s[0]] + Leading(s[1..])
  }

  const NAME_LEN := 14

  /** GetTabletNumFromName: the number after `tablet`, or zero if the name is not of the usual
      length; eight digits cannot overflow. */
  method GetTabletNumFromName(name: Bytes) returns (v: nat)
    ensures v as int == if |name| == NAME_LEN && name[..6] == TABLET then Value(Leading(name[6..])) else 0
  {
    if |name| != NAME_LEN || name[..6] != TABLET {
      return 0;
    }
    var num := name[6..];
    v := 0;
    var i := 0;
    while i < |num|
      invariant 0 <= i <= |Leading(num)| && v == Value(num[..i])
    {
      if Digit(num[i]) {
        LeadingReaches(num, i);
        ValueSnoc(num[..i], num[i]);
        assert num[..i + 1] == num[..i] + [num[i]];
        v := v * 10 + (num[i] as int - 48);
      } else {
        break;
      }
      i := i + 1;
    }
    assert i == |Leading(num)|;
  }

  lemma LeadingReaches(s: Bytes, i: nat)
    requires i < |s| && i <= |Leading(s)| && Digit(s[i])
    ensures i < |Leading(s)|
  {
  }

  lemma {:induction false} DecimalDigits(n: nat)
    ensures forall b :: b in Decimal(n) ==> Digit(b)
  {
    if n >= 10 { DecimalDigits(n / 10); }
  }

  lemma {:induction false} PaddedDigits(s: Bytes)
    requires forall b :: b in s ==> Digit(b)
    ensures forall b :: b in Padded(s) ==> Digit(b)
    ensures |s| <= NUM_LEN ==> |Padded(s)| == NUM_LEN
    decreases NUM_LEN - |s|
  {
    if |s| < NUM_LEN { PaddedDigits([48] + s); }
  }

  lemma AllLeading(s: Bytes)
    requires forall b :: b in s ==> Digit(b)
    ensures Leading(s) == s
  {
    assert forall k :: 0 <= k < |s| ==> s[k] in s;
  }

  lemma {:induction false} DecimalLength(n: nat, k: nat)
    requires k >= 1 && n < Ten(k)
    ensures |Decimal(n)| <= k
    decreases k
  {
    if n >= 10 {
      assert k > 1;
      assert n / 10 < Ten(k - 1);
      DecimalLength(n / 10, k - 1);
    }
  }

  function Ten(k: nat): nat {
    if k == 0 then 1 else 10 * Ten(k - 1)
  }

  /** A new name reads back as its number, as long as that has eight digits. */
  lemma NameReadsBack(n: nat)
    requires n < 100_000_000
    ensures var name := TabletName(n);
            |name| == NAME_LEN && name[..6] == TABLET && Value(Leading(name[6..])) == n
  {
    assert Ten(8) == 100_000_000 by { assert Ten(4) == 10_000; }
    DecimalLength(n, NUM_LEN);
    DecimalDigits(n);
    PaddedDigits(Decimal(n));
    AllLeading(Padded(Decimal(n)));
    PaddedValue(Decimal(n));
    DecimalValue(n);
    assert TabletName(n)[6..] == Padded(Decimal(n)) && TabletName(n)[..6] == TABLET;
  }

  // ---------- what is left to issue ----------

  /** The table, the names of its unreadable tablets and its largest tablet number. */
  datatype Catalogue = Catalogue(table: Bytes, fails: seq<Bytes>, tabletNum: nat)

  function PathOf(c: Catalogue, name: Bytes): Bytes {
    c.table + [47] + name
  }

  lemma PathsDiffer(c: Catalogue, a: Bytes, b: Bytes)
    requires PathOf(c, a) == PathOf(c, b)
    ensures a == b
  {
    var k := |c.table| + 1;
    assert PathOf(c, a)[k..] == a && PathOf(c, b)[k..] == b;
  }

  /** A name the directory can hold: a number in use. */
  ghost predicate InUse(c: Catalogue, name: Bytes) {
    exists n: nat :: n <= c.tabletNum && name == TabletName(n)
  }

  /** A directory holds no name twice. */
  ghost predicate Proper(c: Catalogue) {
    && (forall i, j :: 0 <= i < j < |c.fails| ==> c.fails[i] != c.fails[j])
    && (forall i :: 0 <= i < |c.fails| ==> InUse(c, c.fails[i]))
  }

  /** A path that can still be issued, once `index` names have been reused and `num` is the
      largest number. */
  ghost predicate Available(c: Catalogue, index: nat, num: nat, path: Bytes) {
    || (exists k :: index <= k < |c.fails| && path == PathOf(c, c.fails[k]))
    || (exists n: nat :: n > num && path == PathOf(c, TabletName(n)))
  }

  function NextName(c: Catalogue, index: nat, num: nat): (Bytes, nat, nat) {
    if index < |c.fails| then (c.fails[index], index + 1, num) else (TabletName(num + 1), index, num + 1)
  }

  method GetTabletName(c: Catalogue, index: nat, num: nat) returns (name: Bytes, index': nat, num': nat)
    ensures (name, index', num') == NextName(c, index, num)
  {
    if index < |c.fails| {
      return c.fails[index], index + 1, num;
    }
    num' := num + 1;
    var digits := Decimal(num');
    var gap := NUM_LEN - |digits|;
    var i := 0;
    while i < gap
      invariant Padded(digits) == Padded(Decimal(num'))
      invariant 0 <= i && (gap >= 0 ==> i <= gap && |digits| == NUM_LEN - gap + i)
      invariant gap < 0 ==> |digits| == NUM_LEN - gap
    {
      digits := [48] + digits;
      i := i + 1;
    }
    return TABLET + digits, index, num';
  }

  /** What is issued was available and is so no longer; nothing else changes that. */
  lemma IssuedOnce(c: Catalogue, index: nat, num: nat, name: Bytes, index': nat, num': nat, path: Bytes)
    requires Proper(c) && num >= c.tabletNum && (name, index', num') == NextName(c, index, num)
    ensures num' >= c.tabletNum && Available(c, index, num, PathOf(c, name))
    ensures !Available(c, index', num', PathOf(c, name))
    ensures Available(c, index', num', path) ==> Available(c, index, num, path)
    ensures Available(c, index, num, path) ==> Available(c, 0, c.tabletNum, path)
  {
    if exists k :: index' <= k < |c.fails| && PathOf(c, name) == PathOf(c, c.fails[k]) {
      var k :| index' <= k < |c.fails| && PathOf(c, name) == PathOf(c, c.fails[k]);
      PathsDiffer(c, name, c.fails[k]);
    }
    if exists n: nat :: n > num' && PathOf(c, name) == PathOf(c, TabletName(n)) {
      var n: nat :| n > num' && PathOf(c, name) == PathOf(c, TabletName(n));
      PathsDiffer(c, name, TabletName(n));
      NotInUse(c, n);
      if index >= |c.fails| { NamesDiffer(num + 1, n); }
    }
  }

  lemma NotInUse(c: Catalogue, n: nat)
    requires n > c.tabletNum
    ensures !InUse(c, TabletName(n))
  {
    forall m: nat | m <= c.tabletNum ensures TabletName(n) != TabletName(m) {
      if TabletName(n) == TabletName(m) { NamesDiffer(n, m); }
    }
  }

  /** The path of a readable tablet is never issued. */
  lemma InUseNotAvailable(c: Catalogue, name: Bytes)
    requires InUse(c, name) && name !in c.fails
    ensures !Available(c, 0, c.tabletNum, PathOf(c, name))
  {
    forall other | PathOf(c, name) == PathOf(c, other) ensures other == name {
      PathsDiffer(c, name, other);
    }
    forall n: nat | n > c.tabletNum ensures TabletName(n) != name {
      NotInUse(c, n);
    }
  }
}

/** Byte strings and their order.  Keys, family names, qualifiers and values are
    all C++ `std::string`s or `Slice`s, compared byte by byte as unsigned values. */
module Bytes {

  newtype Byte = x: int | 0 <= x < 256

  type Bytes = seq<Byte>

  /** `Slice::compare(a, b) < 0`: lexicographic, a proper prefix comes first. */
  predicate LexLt(a: Bytes, b: Bytes)
  {
    b != [] && (a == [] || a[0] < b[0] || (a[0] == b[0] && LexLt(a[1..], b[1..])))
  }

  lemma {:induction false} LexAsym(a: Bytes, b: Bytes)
    ensures !(LexLt(a, b) && LexLt(b, a))
    ensures !LexLt(a, a)
    decreases |a|
  {
    if a != [] {
      LexAsym(a[1..], a[1..]);
      if b != [] {
        LexAsym(a[1..], b[1..]);
      }
    }
  }

  lemma {:induction false} LexTrans(a: Bytes, b: Bytes, c: Bytes)
    requires LexLt(a, b) && LexLt(b, c)
    ensures LexLt(a, c)
    decreases |a|
  {
    if a != [] && a[0] == b[0] && b[0] == c[0] {
      LexTrans(a[1..], b[1..], c[1..]);
    }
  }

  lemma {:induction false} LexTotal(a: Bytes, b: Bytes)
    ensures a == b || LexLt(a, b) || LexLt(b, a)
    decreases |a|
  {
    if a != [] && b != [] && a[0] == b[0] {
      LexTotal(a[1..], b[1..]);
      assert a == [a[0]] + a[1..] && b == [b[0]] + b[1..];
    }
  }
}

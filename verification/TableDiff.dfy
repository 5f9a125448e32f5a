/** terautil's diff: two scans of the same key range, from a source and a destination
    table, merged into five counters. */
module TableDiff {
  import opened Bytes

  datatype Record = Record(row: Bytes, cf: Bytes, qual: Bytes, ts: int, value: Bytes)

  predicate SameColumn(a: Record, b: Record) {
    a.row == b.row && a.cf == b.cf && a.qual == b.qual
  }

  /** Timestamps count only in the multi-version families `multi`. */
  predicate SameKey(multi: set<Bytes>, a: Record, b: Record) {
    SameColumn(a, b) && (a.cf in multi ==> a.ts == b.ts)
  }

  predicate KeyLt(multi: set<Bytes>, a: Record, b: Record) {
    || LexLt(a.row, b.row)
    || (a.row == b.row && LexLt(a.cf, b.cf))
    || (a.row == b.row && a.cf == b.cf && LexLt(a.qual, b.qual))
    || (SameColumn(a, b) && a.cf in multi && a.ts > b.ts)
  }

  ghost predicate Ordered(multi: set<Bytes>, s: seq<Record>) {
    forall i, j :: 0 <= i < j < |s| ==> KeyLt(multi, s[i], s[j])
  }

  lemma KeyTrans(multi: set<Bytes>, a: Record, b: Record, c: Record)
    requires KeyLt(multi, a, b) && KeyLt(multi, b, c)
    ensures KeyLt(multi, a, c)
  {
    if LexLt(a.row, b.row) && LexLt(b.row, c.row) { LexTrans(a.row, b.row, c.row); }
    if LexLt(a.cf, b.cf) && LexLt(b.cf, c.cf) { LexTrans(a.cf, b.cf, c.cf); }
    if LexLt(a.qual, b.qual) && LexLt(b.qual, c.qual) { LexTrans(a.qual, b.qual, c.qual); }
  }

  lemma KeyApart(multi: set<Bytes>, a: Record, b: Record)
    ensures KeyLt(multi, a, b) ==> !SameKey(multi, a, b) && !SameKey(multi, b, a)
  {
    LexAsym(a.row, b.row);
    LexAsym(a.cf, b.cf);
    LexAsym(a.qual, b.qual);
  }

  lemma KeySubst(multi: set<Bytes>, a: Record, b: Record, c: Record)
    requires SameKey(multi, a, b)
    ensures KeyLt(multi, a, c) <==> KeyLt(multi, b, c)
    ensures KeyLt(multi, c, a) <==> KeyLt(multi, c, b)
    ensures SameKey(multi, a, c) <==> SameKey(multi, b, c)
  {
  }

  // ---------- what the counters mean ----------

  ghost predicate Has(multi: set<Bytes>, s: seq<Record>, a: Record) {
    exists k :: 0 <= k < |s| && SameKey(multi, s[k], a)
  }

  /** Of the first `n` records of `a`, those whose key is not in `b`. */
  ghost function Missing(multi: set<Bytes>, a: seq<Record>, n: nat, b: seq<Record>): set<nat>
    requires n <= |a|
  {
    set k: nat | k < n && !Has(multi, b, a[k])
  }

  /** Of the first `n` records of `a`, those `b` has with an equal value, or with another. */
  ghost function Matched(multi: set<Bytes>, a: seq<Record>, n: nat, b: seq<Record>, equal: bool): set<nat>
    requires n <= |a|
  {
    set k: nat | k < n && Matches(multi, a[k], b, equal)
  }

  ghost predicate Matches(multi: set<Bytes>, x: Record, b: seq<Record>, equal: bool) {
    exists k :: 0 <= k < |b| && SameKey(multi, b[k], x) && (b[k].value == x.value <==> equal)
  }

  datatype Stat = Stat(onlySrc: nat, onlyDest: nat, diff: nat, same: nat, all: nat)

  /** The counters after `i` records of `src` and `j` of `dest`. */
  ghost predicate Counted(multi: set<Bytes>, src: seq<Record>, dest: seq<Record>, i: nat, j: nat, c: Stat) {
    && i <= |src| && j <= |dest|
    && c.onlySrc == |Missing(multi, src, i, dest)| && c.onlyDest == |Missing(multi, dest, j, src)|
    && c.diff == |Matched(multi, src, i, dest, false)| && c.same == |Matched(multi, src, i, dest, true)|
    && i == c.onlySrc + c.diff + c.same && j == c.onlyDest + c.diff + c.same
    && c.all == c.onlySrc + c.onlyDest + c.diff + c.same
  }

  /** Every record passed comes before every record of the other stream still to come. */
  ghost predicate Merged(multi: set<Bytes>, src: seq<Record>, dest: seq<Record>, i: nat, j: nat) {
    && i <= |src| && j <= |dest|
    && (forall k, l :: 0 <= k < i && j <= l < |dest| ==> KeyLt(multi, src[k], dest[l]))
    && (forall k, l :: 0 <= k < j && i <= l < |src| ==> KeyLt(multi, dest[k], src[l]))
  }

  // ---------- one step of the merge ----------

  lemma MissingNext(multi: set<Bytes>, a: seq<Record>, n: nat, b: seq<Record>)
    requires n < |a|
    ensures !Has(multi, b, a[n]) ==> |Missing(multi, a, n + 1, b)| == |Missing(multi, a, n, b)| + 1
    ensures Has(multi, b, a[n]) ==> Missing(multi, a, n + 1, b) == Missing(multi, a, n, b)
  {
    if !Has(multi, b, a[n]) {
      assert Missing(multi, a, n + 1, b) == Missing(multi, a, n, b) + {n};
    }
  }

  lemma MatchedNext(multi: set<Bytes>, a: seq<Record>, n: nat, b: seq<Record>, equal: bool)
    requires n < |a|
    ensures Matches(multi, a[n], b, equal) ==>
              |Matched(multi, a, n + 1, b, equal)| == |Matched(multi, a, n, b, equal)| + 1
    ensures !Matches(multi, a[n], b, equal) ==> Matched(multi, a, n + 1, b, equal) == Matched(multi, a, n, b, equal)
  {
    if Matches(multi, a[n], b, equal) {
      assert Matched(multi, a, n + 1, b, equal) == Matched(multi, a, n, b, equal) + {n};
    }
  }

  /** A record smaller than the other stream's next one is not in the other stream. */
  lemma SmallerIsMissing(multi: set<Bytes>, a: seq<Record>, b: seq<Record>, i: nat, j: nat)
    requires Ordered(multi, b) && i < |a| && j <= |b|
    requires forall l :: 0 <= l < j ==> KeyLt(multi, b[l], a[i])
    requires j < |b| ==> KeyLt(multi, a[i], b[j])
    ensures !Has(multi, b, a[i])
    ensures forall l :: j <= l < |b| ==> KeyLt(multi, a[i], b[l])
  {
    forall l | j <= l < |b| ensures KeyLt(multi, a[i], b[l]) {
      if j < l { KeyTrans(multi, a[i], b[j], b[l]); }
    }
    forall l | 0 <= l < |b| ensures !SameKey(multi, b[l], a[i]) {
      KeyApart(multi, b[l], a[i]);
      KeyApart(multi, a[i], b[l]);
    }
  }

  lemma SrcNext(multi: set<Bytes>, src: seq<Record>, dest: seq<Record>, i: nat, j: nat, c: Stat)
    requires Ordered(multi, src) && Ordered(multi, dest) && Merged(multi, src, dest, i, j) && i < |src|
    requires Counted(multi, src, dest, i, j, c) && (j < |dest| ==> KeyLt(multi, src[i], dest[j]))
    ensures Merged(multi, src, dest, i + 1, j)
    ensures Counted(multi, src, dest, i + 1, j, c.(onlySrc := c.onlySrc + 1, all := c.all + 1))
  {
    SmallerIsMissing(multi, src, dest, i, j);
    MissingNext(multi, src, i, dest);
    MatchedNext(multi, src, i, dest, true);
    MatchedNext(multi, src, i, dest, false);
  }

  lemma DestNext(multi: set<Bytes>, src: seq<Record>, dest: seq<Record>, i: nat, j: nat, c: Stat)
    requires Ordered(multi, src) && Ordered(multi, dest) && Merged(multi, src, dest, i, j) && j < |dest|
    requires Counted(multi, src, dest, i, j, c) && (i < |src| ==> KeyLt(multi, dest[j], src[i]))
    ensures Merged(multi, src, dest, i, j + 1)
    ensures Counted(multi, src, dest, i, j + 1, c.(onlyDest := c.onlyDest + 1, all := c.all + 1))
  {
    SmallerIsMissing(multi, dest, src, j, i);
    MissingNext(multi, dest, j, src);
  }

  /** No other record of an ordered stream has the key of its `j`th. */
  lemma KeyOnce(multi: set<Bytes>, b: seq<Record>, j: nat, x: Record, k: nat)
    requires Ordered(multi, b) && j < |b| && SameKey(multi, b[j], x) && k < |b| && SameKey(multi, b[k], x)
    ensures k == j
  {
    if k < j { KeyApart(multi, b[k], b[j]); }
    if j < k { KeyApart(multi, b[j], b[k]); }
  }

  lemma BothMerged(multi: set<Bytes>, src: seq<Record>, dest: seq<Record>, i: nat, j: nat)
    requires Ordered(multi, src) && Ordered(multi, dest) && Merged(multi, src, dest, i, j)
    requires i < |src| && j < |dest| && SameKey(multi, src[i], dest[j])
    ensures Merged(multi, src, dest, i + 1, j + 1)
  {
    forall l | j + 1 <= l < |dest| ensures KeyLt(multi, src[i], dest[l]) {
      KeySubst(multi, src[i], dest[j], dest[l]);
    }
    forall l | i + 1 <= l < |src| ensures KeyLt(multi, dest[j], src[l]) {
      KeySubst(multi, src[i], dest[j], src[l]);
    }
  }

  lemma BothNext(multi: set<Bytes>, src: seq<Record>, dest: seq<Record>, i: nat, j: nat, c: Stat)
    requires Ordered(multi, src) && Ordered(multi, dest) && Merged(multi, src, dest, i, j)
    requires i < |src| && j < |dest| && SameKey(multi, src[i], dest[j]) && Counted(multi, src, dest, i, j, c)
    ensures Merged(multi, src, dest, i + 1, j + 1)
    ensures var equal := src[i].value == dest[j].value;
            Counted(multi, src, dest, i + 1, j + 1,
                    if equal then c.(same := c.same + 1, all := c.all + 1) else c.(diff := c.diff + 1, all := c.all + 1))
  {
    BothMerged(multi, src, dest, i, j);
    var equal := src[i].value == dest[j].value;
    MissingNext(multi, src, i, dest);
    MissingNext(multi, dest, j, src);
    MatchedNext(multi, src, i, dest, true);
    MatchedNext(multi, src, i, dest, false);
    assert Matches(multi, src[i], dest, equal) by {
      assert SameKey(multi, dest[j], src[i]);
    }
    assert !Matches(multi, src[i], dest, !equal) by {
      if k :| 0 <= k < |dest| && SameKey(multi, dest[k], src[i]) && (dest[k].value == src[i].value <==> !equal) {
        KeyOnce(multi, dest, j, src[i], k);
      }
    }
    assert Has(multi, dest, src[i]) && Has(multi, src, dest[j]);
  }

  function CountValue(c: Stat, equal: bool): Stat {
    if equal then c.(same := c.same + 1) else c.(diff := c.diff + 1)
  }

  /** The streams have been merged up to `i` and `j` and counted into `c`. */
  ghost predicate Sound(multi: set<Bytes>, src: seq<Record>, dest: seq<Record>, i: nat, j: nat, c: Stat) {
    Ordered(multi, src) && Ordered(multi, dest) && Merged(multi, src, dest, i, j) && Counted(multi, src, dest, i, j, c)
  }

  /** The step as the program makes it: the record is counted into `all` first. */
  lemma BothCounted(multi: set<Bytes>, src: seq<Record>, dest: seq<Record>, i: nat, j: nat, c: Stat, c': Stat)
    requires c.all >= 1 && Sound(multi, src, dest, i, j, c.(all := c.all - 1))
    requires i < |src| && j < |dest| && SameKey(multi, src[i], dest[j])
    requires c' == CountValue(c, src[i].value == dest[j].value)
    ensures Sound(multi, src, dest, i + 1, j + 1, c')
  {
    BothNext(multi, src, dest, i, j, c.(all := c.all - 1));
    assert c.(all := c.all - 1).(same := c.same + 1, all := c.all) == c.(same := c.same + 1);
    assert c.(all := c.all - 1).(diff := c.diff + 1, all := c.all) == c.(diff := c.diff + 1);
  }

  // ---------- the program ----------

  /** The two streams and the counters.  `multi` are the multi-version families. */
  class CompareContext {
    const multi: set<Bytes>
    const src: seq<Record>
    const dest: seq<Record>
    var i: nat
    var j: nat
    var stat: Stat

    ghost predicate Valid()
      reads this
    {
      Sound(multi, src, dest, i, j, stat)
    }

    /** The counters but for the record just counted into in_src_or_in_dest. */
    ghost predicate Counting()
      reads this
    {
      stat.all >= 1 && Sound(multi, src, dest, i, j, stat.(all := stat.all - 1))
    }

    constructor (multi: set<Bytes>, src: seq<Record>, dest: seq<Record>)
      requires Ordered(multi, src) && Ordered(multi, dest)
      ensures Valid() && i == 0 && j == 0 && this.multi == multi && this.src == src && this.dest == dest
    {
      this.multi, this.src, this.dest := multi, src, dest;
      i, j, stat := 0, 0, Stat(0, 0, 0, 0, 0);
    }

    method SrcRecordAndNext()
      requires Counting() && i < |src| && (j < |dest| ==> KeyLt(multi, src[i], dest[j]))
      modifies this
      ensures Valid() && i == old(i) + 1 && j == old(j)
    {
      SrcNext(multi, src, dest, i, j, stat.(all := stat.all - 1));
      stat := stat.(onlySrc := stat.onlySrc + 1);
      i := i + 1;
    }

    method DestRecordAndNext()
      requires Counting() && j < |dest| && (i < |src| ==> KeyLt(multi, dest[j], src[i]))
      modifies this
      ensures Valid() && i == old(i) && j == old(j) + 1
    {
      DestNext(multi, src, dest, i, j, stat.(all := stat.all - 1));
      stat := stat.(onlyDest := stat.onlyDest + 1);
      j := j + 1;
    }

    method HandleNotEqual(compRes: int)
      requires Counting() && i < |src| && j < |dest| && compRes != 0
      requires if compRes < 0 then KeyLt(multi, src[i], dest[j]) else KeyLt(multi, dest[j], src[i])
      modifies this
      ensures Valid() && old(i) <= i && old(j) <= j && i + j == old(i) + old(j) + 1
    {
      if compRes < 0 {
        SrcRecordAndNext();
      } else if compRes > 0 {
        DestRecordAndNext();
      }
    }

    method CompareValue()
      requires Counting() && i < |src| && j < |dest| && SameKey(multi, src[i], dest[j])
      modifies this
      ensures Valid() && i == old(i) + 1 && j == old(j) + 1
    {
      var c := stat;
      if src[i].value != dest[j].value {
        c := c.(diff := c.diff + 1);
      } else {
        c := c.(same := c.same + 1);
      }
      assert c == CountValue(stat, src[i].value == dest[j].value);
      BothCounted(multi, src, dest, i, j, stat, c);
      NextBoth(c);
    }

    method NextBoth(c: Stat)
      requires Sound(multi, src, dest, i + 1, j + 1, c)
      modifies this
      ensures Valid() && i == old(i) + 1 && j == old(j) + 1
    {
      stat, i, j := c, i + 1, j + 1;
    }

    method CompareTimestamp()
      requires Counting() && i < |src| && j < |dest| && SameColumn(src[i], dest[j]) && src[i].cf in multi
      modifies this
      ensures Valid() && old(i) <= i && old(j) <= j && i + j > old(i) + old(j)
    {
      var compRes := 0;
      if src[i].ts > dest[j].ts {
        compRes := -1;
      } else if src[i].ts < dest[j].ts {
        compRes := 1;
      }
      if compRes != 0 {
        HandleNotEqual(compRes);
      } else {
        CompareValue();
      }
    }

    method CompareQualifier()
      requires Counting() && i < |src| && j < |dest| && src[i].row == dest[j].row && src[i].cf == dest[j].cf
      modifies this
      ensures Valid() && old(i) <= i && old(j) <= j && i + j > old(i) + old(j)
    {
      var compRes := Compare(src[i].qual, dest[j].qual);
      if compRes != 0 {
        HandleNotEqual(compRes);
      } else if src[i].cf in multi {
        CompareTimestamp();
      } else {
        CompareValue();
      }
    }

    method CompareFamily()
      requires Counting() && i < |src| && j < |dest| && src[i].row == dest[j].row
      modifies this
      ensures Valid() && old(i) <= i && old(j) <= j && i + j > old(i) + old(j)
    {
      var compRes := Compare(src[i].cf, dest[j].cf);
      if compRes != 0 {
        HandleNotEqual(compRes);
      } else {
        CompareQualifier();
      }
    }

    method CompareRowName()
      requires Counting() && i < |src| && j < |dest|
      modifies this
      ensures Valid() && old(i) <= i && old(j) <= j && i + j > old(i) + old(j)
    {
      var compRes := Compare(src[i].row, dest[j].row);
      if compRes != 0 {
        HandleNotEqual(compRes);
      } else {
        CompareFamily();
      }
    }

    /** ScanAndDiffData's loop; `srcOk` and `destOk` tell whether a stream ends without an
        error.  It fails exactly if one of them does. */
    method ScanAndDiffData(srcOk: bool, destOk: bool) returns (res: int)
      requires Valid() && i == 0 && j == 0
      modifies this
      ensures Valid()
      ensures res == 0 <==> srcOk && destOk
      ensures res == 0 ==> i == |src| && j == |dest|
    {
      res := 0;
      while true
        invariant Valid() && res == 0
        decreases |src| + |dest| - i - j
      {
        var srcDone, destDone := i == |src|, j == |dest|;
        if (srcDone && !srcOk) || (destDone && !destOk) {
          res := -1;
          break;
        }
        if srcDone && destDone {
          break;
        }
        stat := stat.(all := stat.all + 1);
        if srcDone && !destDone {
          DestRecordAndNext();
        } else if !srcDone && destDone {
          SrcRecordAndNext();
        } else {
          CompareRowName();
        }
      }
    }
  }

  /** std::string::compare. */
  function Compare(a: Bytes, b: Bytes): (r: int)
    ensures r < 0 <==> LexLt(a, b)
    ensures r > 0 <==> LexLt(b, a)
    ensures r == 0 <==> a == b
  {
    LexTotal(a, b);
    LexAsym(a, b);
    LexAsym(a, a);
    if LexLt(a, b) then -1 else if LexLt(b, a) then 1 else 0
  }

  // ---------- what the counters tell ----------

  function KeyOf(multi: set<Bytes>, a: Record): Record {
    Record(a.row, a.cf, a.qual, if a.cf in multi then a.ts else 0, [])
  }

  ghost function Keys(multi: set<Bytes>, s: seq<Record>, n: nat): set<Record>
    requires n <= |s|
  {
    set k: nat | k < n :: KeyOf(multi, s[k])
  }

  lemma KeysNext(multi: set<Bytes>, s: seq<Record>, n: nat)
    requires Ordered(multi, s) && n < |s|
    ensures Keys(multi, s, n + 1) == Keys(multi, s, n) + {KeyOf(multi, s[n])}
    ensures KeyOf(multi, s[n]) !in Keys(multi, s, n)
  {
    forall k: nat | k < n ensures KeyOf(multi, s[k]) != KeyOf(multi, s[n]) {
      KeyApart(multi, s[k], s[n]);
    }
  }

  lemma {:induction false} KeysSize(multi: set<Bytes>, s: seq<Record>, n: nat)
    requires Ordered(multi, s) && n <= |s|
    ensures |Keys(multi, s, n)| == n
  {
    if n > 0 {
      KeysSize(multi, s, n - 1);
      KeysNext(multi, s, n - 1);
    }
  }

  lemma KeyInHas(multi: set<Bytes>, s: seq<Record>, a: Record)
    ensures KeyOf(multi, a) in Keys(multi, s, |s|) <==> Has(multi, s, a)
  {
    if KeyOf(multi, a) in Keys(multi, s, |s|) {
      var k: nat :| k < |s| && KeyOf(multi, s[k]) == KeyOf(multi, a);
      assert SameKey(multi, s[k], a);
    }
    if Has(multi, s, a) {
      var k :| 0 <= k < |s| && SameKey(multi, s[k], a);
      assert KeyOf(multi, s[k]) == KeyOf(multi, a);
    }
  }

  lemma AddKey(a: set<Record>, k: set<Record>, key: Record)
    requires key !in k
    ensures |a + (k + {key})| == |a + k| + if key in a then 0 else 1
  {
    assert a + (k + {key}) == (a + k) + {key};
    if key in a { assert (a + k) + {key} == a + k; }
  }

  /** How many keys are in `src` or among the first `n` of `dest`. */
  ghost function UnionCount(multi: set<Bytes>, src: seq<Record>, dest: seq<Record>, n: nat): nat
    requires n <= |dest|
  {
    |Keys(multi, src, |src|) + Keys(multi, dest, n)|
  }

  lemma UnionFirst(multi: set<Bytes>, src: seq<Record>, dest: seq<Record>)
    requires Ordered(multi, src)
    ensures UnionCount(multi, src, dest, 0) == |src| && Missing(multi, dest, 0, src) == {}
  {
    KeysSize(multi, src, |src|);
    assert Keys(multi, src, |src|) + Keys(multi, dest, 0) == Keys(multi, src, |src|);
  }

  /** One more key of `dest` adds to the union exactly if `src` does not have it. */
  lemma UnionNext(multi: set<Bytes>, src: seq<Record>, dest: seq<Record>, n: nat)
    requires Ordered(multi, dest) && n < |dest|
    ensures UnionCount(multi, src, dest, n + 1) - |Missing(multi, dest, n + 1, src)| ==
            UnionCount(multi, src, dest, n) - |Missing(multi, dest, n, src)|
  {
    KeysNext(multi, dest, n);
    MissingNext(multi, dest, n, src);
    KeyInHas(multi, src, dest[n]);
    AddKey(Keys(multi, src, |src|), Keys(multi, dest, n), KeyOf(multi, dest[n]));
  }

  lemma {:induction false} UnionSize(multi: set<Bytes>, src: seq<Record>, dest: seq<Record>, n: nat)
    requires Ordered(multi, src) && Ordered(multi, dest) && n <= |dest|
    ensures UnionCount(multi, src, dest, n) == |src| + |Missing(multi, dest, n, src)|
  {
    if n == 0 {
      UnionFirst(multi, src, dest);
    } else {
      var m: nat := n - 1;
      UnionSize(multi, src, dest, m);
      UnionNext(multi, src, dest, m);
    }
  }

  /** At the end the last counter counts the keys that are in either stream. */
  lemma CountsUnion(multi: set<Bytes>, src: seq<Record>, dest: seq<Record>, c: Stat)
    requires Ordered(multi, src) && Ordered(multi, dest) && Counted(multi, src, dest, |src|, |dest|, c)
    ensures c.all == |Keys(multi, src, |src|) + Keys(multi, dest, |dest|)|
  {
    UnionSize(multi, src, dest, |dest|);
  }

  /** Every record of `a` is in `b` with the same value. */
  ghost predicate Within(multi: set<Bytes>, a: seq<Record>, b: seq<Record>) {
    forall k :: 0 <= k < |a| ==> Matches(multi, a[k], b, true)
  }

  lemma NothingMissing(multi: set<Bytes>, a: seq<Record>, b: seq<Record>)
    requires Ordered(multi, b)
    ensures Missing(multi, a, |a|, b) == {} && Matched(multi, a, |a|, b, false) == {} <==> Within(multi, a, b)
  {
    var missing, diff := Missing(multi, a, |a|, b), Matched(multi, a, |a|, b, false);
    if missing == {} && diff == {} {
      forall k: nat | k < |a| ensures Matches(multi, a[k], b, true) {
        assert k !in missing && k !in diff;
        var l :| 0 <= l < |b| && SameKey(multi, b[l], a[k]);
      }
    }
    if Within(multi, a, b) {
      forall k: nat | k < |a| ensures k !in missing && k !in diff {
        assert Matches(multi, a[k], b, true);
        OneValue(multi, a[k], b);
      }
    }
  }

  lemma WithinBack(multi: set<Bytes>, a: seq<Record>, b: seq<Record>)
    requires Within(multi, a, b) && Ordered(multi, b) && Missing(multi, b, |b|, a) == {}
    ensures Within(multi, b, a)
  {
    forall k: nat | k < |b| ensures Matches(multi, b[k], a, true) {
      assert k !in Missing(multi, b, |b|, a);
      var l :| 0 <= l < |a| && SameKey(multi, a[l], b[k]);
      assert Matches(multi, a[l], b, true);
      var j :| 0 <= j < |b| && SameKey(multi, b[j], a[l]) && (b[j].value == a[l].value <==> true);
      KeyOnce(multi, b, k, a[l], j);
    }
  }

  /** No difference is counted exactly when each stream's records are in the other one,
      with the same values. */
  lemma NoDifferenceIff(multi: set<Bytes>, src: seq<Record>, dest: seq<Record>, c: Stat)
    requires Ordered(multi, src) && Ordered(multi, dest) && Counted(multi, src, dest, |src|, |dest|, c)
    ensures c.onlySrc == 0 && c.onlyDest == 0 && c.diff == 0 <==> Within(multi, src, dest) && Within(multi, dest, src)
  {
    NothingMissing(multi, src, dest);
    NothingMissing(multi, dest, src);
    if c.onlySrc == 0 && c.onlyDest == 0 && c.diff == 0 {
      WithinBack(multi, src, dest);
    }
  }

  lemma OneValue(multi: set<Bytes>, x: Record, b: seq<Record>)
    requires Ordered(multi, b)
    ensures Matches(multi, x, b, true) ==> !Matches(multi, x, b, false)
  {
    if Matches(multi, x, b, true) {
      var j :| 0 <= j < |b| && SameKey(multi, b[j], x) && (b[j].value == x.value <==> true);
      forall k | 0 <= k < |b| && SameKey(multi, b[k], x) ensures k == j { KeyOnce(multi, b, j, x, k); }
    }
  }
}

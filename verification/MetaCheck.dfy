/** ProcessMeta's range check: one pass over the tablets of all tables, in meta table order. */
module MetaCheck {
  import opened Bytes
  import opened TabletNames
  import opened Tiling

  datatype Meta = Meta(table: Bytes, tablet: Tablet)

  datatype Finding = Invalid | MissEnd | MissGap | Covered | Overlap | MissStart

  datatype Report = Report(at: nat, finding: Finding)

  /** What holds between a tablet and the one before it, or the start of the list, if every
      table's tablets tile the key space. */
  predicate Follows(ms: seq<Meta>, i: nat)
    requires i < |ms|
  {
    var t := ms[i].tablet;
    && ValidRange(t)
    && (if i == 0 then t.start == []
        else if ms[i].table == ms[i - 1].table then ms[i - 1].tablet.end != [] && t.start == ms[i - 1].tablet.end
        else ms[i - 1].tablet.end == [] && t.start == [])
  }

  predicate FollowUpTo(ms: seq<Meta>, n: nat)
    requires n <= |ms|
  {
    forall i :: 0 <= i < n ==> Follows(ms, i)
  }

  /** Every maximal run of tablets of one table tiles the key space. */
  ghost predicate AllTile(ms: seq<Meta>) {
    forall i, j :: 0 <= i < j <= |ms| && MaximalRun(ms, i, j) ==> Tiles(Tablets(ms[i..j]))
  }

  ghost predicate MaximalRun(ms: seq<Meta>, i: nat, j: nat)
    requires i < j <= |ms|
  {
    && (forall k :: i <= k < j ==> ms[k].table == ms[i].table)
    && (i > 0 ==> ms[i - 1].table != ms[i].table)
    && (j < |ms| ==> ms[j].table != ms[i].table)
  }

  function Tablets(ms: seq<Meta>): seq<Tablet> {
    seq(|ms|, i requires 0 <= i < |ms| => ms[i].tablet)
  }

  // ---------- runs and neighbours ----------

  lemma {:induction false} RunStart(ms: seq<Meta>, k: nat) returns (i: nat)
    requires k < |ms|
    ensures i <= k && (forall l :: i <= l <= k ==> ms[l].table == ms[k].table) && (i > 0 ==> ms[i - 1].table != ms[i].table)
  {
    if k == 0 || ms[k - 1].table != ms[k].table {
      i := k;
    } else {
      i := RunStart(ms, k - 1);
    }
  }

  lemma {:induction false} RunEnd(ms: seq<Meta>, k: nat) returns (j: nat)
    requires k < |ms|
    ensures k < j <= |ms| && (forall l :: k <= l < j ==> ms[l].table == ms[k].table) && (j < |ms| ==> ms[j].table != ms[k].table)
    decreases |ms| - k
  {
    if k + 1 == |ms| || ms[k + 1].table != ms[k].table {
      j := k + 1;
    } else {
      j := RunEnd(ms, k + 1);
    }
  }

  lemma RunAround(ms: seq<Meta>, k: nat) returns (i: nat, j: nat)
    requires k < |ms|
    ensures i <= k < j <= |ms| && MaximalRun(ms, i, j)
  {
    i := RunStart(ms, k);
    j := RunEnd(ms, k);
  }

  /** The list ends with the end of a table. */
  predicate Ends(ms: seq<Meta>) {
    ms == [] || ms[|ms| - 1].tablet.end == []
  }

  lemma RunTiles(ms: seq<Meta>, i: nat, j: nat)
    requires FollowUpTo(ms, |ms|) && Ends(ms) && i < j <= |ms| && MaximalRun(ms, i, j)
    ensures Tiles(Tablets(ms[i..j]))
  {
    var s := Tablets(ms[i..j]);
    assert Follows(ms, i);
    assert j < |ms| ==> Follows(ms, j);
    forall k | 0 <= k < |s| ensures ValidRange(s[k]) {
      assert Follows(ms, i + k);
    }
    forall k | 0 <= k < |s| - 1 ensures s[k].end != [] && s[k + 1].start == s[k].end {
      assert Follows(ms, i + k + 1);
    }
  }

  lemma TileFollows(ms: seq<Meta>, k: nat)
    requires AllTile(ms) && k < |ms|
    ensures Follows(ms, k) && (k + 1 == |ms| ==> ms[k].tablet.end == [])
  {
    var i, j := RunAround(ms, k);
    var s := Tablets(ms[i..j]);
    assert Tiles(s) && s[k - i] == ms[k].tablet;
    if k > i {
      assert s[k - i - 1] == ms[k - 1].tablet;
    } else if k > 0 {
      var i', j' := RunAround(ms, k - 1);
      assert j' == k;
      var s' := Tablets(ms[i'..j']);
      assert Tiles(s') && s'[|s'| - 1] == ms[k - 1].tablet;
    }
  }

  /** The tables tile exactly when each tablet follows the one before it. */
  lemma AllTileIff(ms: seq<Meta>)
    ensures AllTile(ms) <==> FollowUpTo(ms, |ms|) && Ends(ms)
  {
    if AllTile(ms) {
      forall k | 0 <= k < |ms| ensures Follows(ms, k) && (k + 1 == |ms| ==> ms[k].tablet.end == []) {
        TileFollows(ms, k);
      }
    }
    if FollowUpTo(ms, |ms|) && Ends(ms) {
      forall i, j | 0 <= i < j <= |ms| && MaximalRun(ms, i, j) ensures Tiles(Tablets(ms[i..j])) {
        RunTiles(ms, i, j);
      }
    }
  }

  // ---------- what there is to report, by keys ----------

  /** `j` is an earlier tablet of the same table that is not ignored as invalid. */
  ghost predicate Earlier(ms: seq<Meta>, i: nat, j: nat)
    requires i < |ms|
  {
    j < i && ValidRange(ms[j].tablet) && ms[j].table == ms[i].table
  }

  ghost predicate HasEarlier(ms: seq<Meta>, i: nat)
    requires i < |ms|
  {
    exists j: nat :: Earlier(ms, i, j)
  }

  ghost predicate InEarlier(ms: seq<Meta>, i: nat, key: Bytes)
    requires i < |ms|
  {
    exists j: nat :: Earlier(ms, i, j) && Contains(ms[j].tablet, key)
  }

  /** `key` is above, or below, every key of the tablet. */
  ghost predicate AboveAll(t: Tablet, key: Bytes) {
    forall k :: Contains(t, k) ==> LexLt(k, key)
  }

  ghost predicate BelowAll(t: Tablet, key: Bytes) {
    forall k :: Contains(t, k) ==> LexLt(key, k)
  }

  ghost predicate Empty(t: Tablet) {
    forall k :: !Contains(t, k)
  }

  /** `q` is the last tablet before `i` that is not ignored. */
  ghost predicate LastValid(ms: seq<Meta>, i: nat, q: nat)
    requires i < |ms|
  {
    q < i && ValidRange(ms[q].tablet) && forall j :: q < j < i ==> !ValidRange(ms[j].tablet)
  }

  /** Some key lies above all tablets of the table before this one. */
  ghost predicate MissEndAt(ms: seq<Meta>, i: nat)
    requires i < |ms|
  {
    exists q: nat :: LastValid(ms, i, q) && ms[q].table != ms[i].table && EndMissed(ms, i, ms[q].table)
  }

  ghost predicate EndMissed(ms: seq<Meta>, i: nat, table: Bytes)
    requires i < |ms|
  {
    exists key :: AboveEarlier(ms, i, table, key)
  }

  ghost predicate AboveEarlier(ms: seq<Meta>, n: nat, table: Bytes, key: Bytes)
    requires n <= |ms|
  {
    forall j :: 0 <= j < n && ValidRange(ms[j].tablet) && ms[j].table == table ==> AboveAll(ms[j].tablet, key)
  }

  /** The table's first tablet, and some key lies below it. */
  ghost predicate MissStartAt(ms: seq<Meta>, i: nat)
    requires i < |ms|
  {
    !HasEarlier(ms, i) && exists key :: BelowAll(ms[i].tablet, key)
  }

  /** Some key lies above all earlier tablets and below this one. */
  ghost predicate MissGapAt(ms: seq<Meta>, i: nat)
    requires i < |ms|
  {
    HasEarlier(ms, i) && exists key :: AboveEarlier(ms, i, ms[i].table, key) && BelowAll(ms[i].tablet, key)
  }

  /** Every key lies in an earlier tablet. */
  ghost predicate CoveredAt(ms: seq<Meta>, i: nat)
    requires i < |ms|
  {
    forall key :: Contains(ms[i].tablet, key) ==> InEarlier(ms, i, key)
  }

  /** Some keys lie in earlier tablets and some do not. */
  ghost predicate OverlapAt(ms: seq<Meta>, i: nat)
    requires i < |ms|
  {
    && (exists key :: Contains(ms[i].tablet, key) && InEarlier(ms, i, key))
    && (exists key :: Contains(ms[i].tablet, key) && !InEarlier(ms, i, key))
  }

  function If(b: bool, f: Finding): seq<Finding> {
    if b then [f] else []
  }

  ghost function FindingsAt(ms: seq<Meta>, i: nat): seq<Finding>
    requires i < |ms|
  {
    if Empty(ms[i].tablet) then [Invalid]
    else
      If(MissEndAt(ms, i), MissEnd) + If(MissStartAt(ms, i), MissStart) + If(MissGapAt(ms, i), MissGap) +
      If(CoveredAt(ms, i), Covered) + If(OverlapAt(ms, i), Overlap)
  }

  function ReportsOf(i: nat, found: seq<Finding>): seq<Report> {
    seq(|found|, k requires 0 <= k < |found| => Report(i, found[k]))
  }

  /** All there is to report about the first `n` tablets. */
  ghost function Findings(ms: seq<Meta>, n: nat): seq<Report>
    requires n <= |ms|
  {
    if n == 0 then [] else Findings(ms, n - 1) + ReportsOf(n - 1, FindingsAt(ms, n - 1))
  }

  /** The order of the meta table: the tablets of a table are together, by start key. */
  ghost predicate InOrder(ms: seq<Meta>) {
    && (forall i, j, k :: 0 <= i < j < k < |ms| && ms[i].table == ms[k].table ==> ms[j].table == ms[i].table)
    && (forall i, j :: 0 <= i < j < |ms| && ms[i].table == ms[j].table ==>
          !LexLt(ms[j].tablet.start, ms[i].tablet.start))
  }

  // ---------- keys and comparisons ----------

  lemma AboveAllIff(t: Tablet, key: Bytes)
    requires ValidRange(t)
    ensures AboveAll(t, key) <==> t.end != [] && !LexLt(key, t.end)
  {
    LexAsym(t.start, t.start);
    LexAsym(key, key);
    if t.end != [] && !LexLt(key, t.end) {
      forall k | Contains(t, k) ensures LexLt(k, key) {
        LexTotal(key, t.end);
        if key != t.end { LexTrans(k, t.end, key); }
      }
    } else {
      LexTotal(t.start, key);
      assert Contains(t, if LexLt(key, t.start) then t.start else key);
      LexAsym(key, t.start);
    }
  }

  lemma BelowAllIff(t: Tablet, key: Bytes)
    requires ValidRange(t)
    ensures BelowAll(t, key) <==> LexLt(key, t.start)
  {
    LexAsym(t.start, t.start);
    assert Contains(t, t.start);
    if LexLt(key, t.start) {
      forall k | Contains(t, k) ensures LexLt(key, k) {
        LexTotal(k, t.start);
        if k != t.start { LexTrans(key, t.start, k); }
      }
    }
  }

  lemma EmptyIff(t: Tablet)
    ensures Empty(t) <==> !ValidRange(t)
  {
    LexAsym(t.start, t.start);
    if ValidRange(t) {
      assert Contains(t, t.start);
    } else {
      forall k ensures !Contains(t, k) {
        LexTotal(k, t.start);
        if LexLt(t.start, k) && LexLt(k, t.end) { LexTrans(t.start, k, t.end); }
      }
    }
  }

  /** Ends in order, an empty one being no limit. */
  predicate EndsBy(a: Bytes, b: Bytes) {
    b == [] || (a != [] && !LexLt(b, a))
  }

  /** `w` is the last tablet not covered: of the table looked at last, and none of that
      table's tablets reaches further. */
  ghost predicate Farthest(ms: seq<Meta>, i: nat, w: nat)
    requires i <= |ms|
  {
    && w < i && ValidRange(ms[w].tablet)
    && (forall j :: w < j < i && ValidRange(ms[j].tablet) ==> ms[j].table == ms[w].table)
    && (forall j :: 0 <= j < i && ValidRange(ms[j].tablet) && ms[j].table == ms[w].table ==>
          EndsBy(ms[j].tablet.end, ms[w].tablet.end))
  }

  ghost predicate NoneValid(ms: seq<Meta>, i: nat)
    requires i <= |ms|
  {
    forall j :: 0 <= j < i ==> !ValidRange(ms[j].tablet)
  }

  lemma {:induction false} LastValidOf(ms: seq<Meta>, i: nat, w: nat) returns (q: nat)
    requires i < |ms| && w < i && ValidRange(ms[w].tablet)
    ensures w <= q && LastValid(ms, i, q)
    decreases i - w
  {
    if j :| w < j < i && ValidRange(ms[j].tablet) {
      q := LastValidOf(ms, i, j);
    } else {
      q := w;
    }
  }

  lemma LastValidUnique(ms: seq<Meta>, i: nat, p: nat, q: nat)
    requires i < |ms| && LastValid(ms, i, p) && LastValid(ms, i, q)
    ensures p == q
  {
    var a, b := ms[p].tablet, ms[q].tablet;
    assert ValidRange(a) && ValidRange(b);
  }

  lemma EarlierIff(ms: seq<Meta>, i: nat, w: nat)
    requires InOrder(ms) && i < |ms| && Farthest(ms, i, w)
    ensures HasEarlier(ms, i) <==> ms[w].table == ms[i].table
  {
    if ms[w].table == ms[i].table {
      assert Earlier(ms, i, w);
    }
    if HasEarlier(ms, i) {
      var j: nat :| Earlier(ms, i, j);
      if j < w { assert ms[w].table == ms[j].table; }
    }
  }

  /** What the earlier tablets hold of the keys from this one's start on. */
  lemma InEarlierIff(ms: seq<Meta>, i: nat, w: nat, key: Bytes)
    requires InOrder(ms) && i < |ms| && Farthest(ms, i, w) && ms[w].table == ms[i].table
    requires ValidRange(ms[i].tablet) && Contains(ms[i].tablet, key)
    ensures InEarlier(ms, i, key) <==> ms[w].tablet.end == [] || LexLt(key, ms[w].tablet.end)
  {
    var t, last := ms[i].tablet, ms[w].tablet;
    if last.end == [] || LexLt(key, last.end) {
      LexTotal(key, t.start);
      LexTotal(t.start, last.start);
      if LexLt(key, last.start) && LexLt(last.start, t.start) { LexTrans(key, last.start, t.start); }
      assert Earlier(ms, i, w) && Contains(last, key);
    }
    if InEarlier(ms, i, key) {
      var j: nat :| Earlier(ms, i, j) && Contains(ms[j].tablet, key);
      var e := ms[j].tablet.end;
      if last.end != [] {
        LexTotal(e, last.end);
        if e != last.end { LexTrans(key, e, last.end); }
      }
    }
  }

  lemma AboveEarlierIff(ms: seq<Meta>, i: nat, w: nat, key: Bytes)
    requires i <= |ms| && Farthest(ms, i, w)
    ensures AboveEarlier(ms, i, ms[w].table, key) <==> ms[w].tablet.end != [] && !LexLt(key, ms[w].tablet.end)
  {
    var last := ms[w].tablet;
    AboveAllIff(last, key);
    if last.end != [] && !LexLt(key, last.end) {
      forall j | 0 <= j < i && ValidRange(ms[j].tablet) && ms[j].table == ms[w].table
        ensures AboveAll(ms[j].tablet, key)
      {
        AboveAllIff(ms[j].tablet, key);
        if LexLt(key, ms[j].tablet.end) {
          LexTotal(ms[j].tablet.end, last.end);
          if ms[j].tablet.end != last.end { LexTrans(key, ms[j].tablet.end, last.end); }
        }
      }
    }
  }

  /** The findings about a tablet, as the check reaches them by comparing it with the last one
      not covered; `tableStart` says that that one's table is complete. */
  function Compared(meta: Meta, last: Meta, tableStart: bool): seq<Finding> {
    var t, e := meta.tablet, last.tablet.end;
    if meta.table != last.table then
      (if tableStart then [] else [MissEnd]) + (if t.start != [] then [MissStart] else [])
    else if tableStart then [Covered]
    else if LexLt(e, t.start) then [MissGap]
    else if t.start == e then []
    else if t.end != [] && !LexLt(e, t.end) then [Covered]
    else [Overlap]
  }

  /** Against a tablet of the same table. */
  lemma SameTableFindings(ms: seq<Meta>, i: nat, w: nat)
    requires InOrder(ms) && i < |ms| && Farthest(ms, i, w) && ms[w].table == ms[i].table && ValidRange(ms[i].tablet)
    ensures !MissStartAt(ms, i) && !MissEndAt(ms, i)
    ensures var e, t := ms[w].tablet.end, ms[i].tablet;
            && (MissGapAt(ms, i) <==> e != [] && LexLt(e, t.start))
            && (CoveredAt(ms, i) <==> e == [] || (t.end != [] && !LexLt(e, t.end)))
            && (OverlapAt(ms, i) <==> e != [] && LexLt(t.start, e) && (t.end == [] || LexLt(e, t.end)))
  {
    EarlierIff(ms, i, w);
    SameTableNoEnd(ms, i, w);
    GapIff(ms, i, w);
    CoveredIff(ms, i, w);
    OverlapIff(ms, i, w);
  }

  lemma SameTableNoEnd(ms: seq<Meta>, i: nat, w: nat)
    requires InOrder(ms) && i < |ms| && Farthest(ms, i, w) && ms[w].table == ms[i].table
    ensures !MissEndAt(ms, i)
  {
    var last := LastValidOf(ms, i, w);
    forall q: nat | LastValid(ms, i, q) ensures q == last {
      LastValidUnique(ms, i, q, last);
    }
  }

  lemma GapIff(ms: seq<Meta>, i: nat, w: nat)
    requires InOrder(ms) && i < |ms| && Farthest(ms, i, w) && ms[w].table == ms[i].table && ValidRange(ms[i].tablet)
    ensures MissGapAt(ms, i) <==> ms[w].tablet.end != [] && LexLt(ms[w].tablet.end, ms[i].tablet.start)
  {
    var e, t := ms[w].tablet.end, ms[i].tablet;
    EarlierIff(ms, i, w);
    if e != [] && LexLt(e, t.start) {
      LexAsym(e, e);
      AboveEarlierIff(ms, i, w, e);
      BelowAllIff(t, e);
    }
    if MissGapAt(ms, i) {
      var key :| AboveEarlier(ms, i, ms[i].table, key) && BelowAll(t, key);
      AboveEarlierIff(ms, i, w, key);
      BelowAllIff(t, key);
      LexTotal(e, key);
      if e != key { LexTrans(e, key, t.start); }
    }
  }

  lemma CoveredIff(ms: seq<Meta>, i: nat, w: nat)
    requires InOrder(ms) && i < |ms| && Farthest(ms, i, w) && ms[w].table == ms[i].table && ValidRange(ms[i].tablet)
    ensures CoveredAt(ms, i) <==> ms[w].tablet.end == [] || (ms[i].tablet.end != [] && !LexLt(ms[w].tablet.end, ms[i].tablet.end))
  {
    var e, t := ms[w].tablet.end, ms[i].tablet;
    if e == [] || (t.end != [] && !LexLt(e, t.end)) {
      forall key | Contains(t, key) ensures InEarlier(ms, i, key) {
        InEarlierIff(ms, i, w, key);
        LexTotal(e, t.end);
        if e != [] && e != t.end { LexTrans(key, t.end, e); }
      }
    } else {
      var key := PastEnd(t, e);
      InEarlierIff(ms, i, w, key);
    }
  }

  /** A tablet that ends after `e` has a key that is not below it. */
  lemma PastEnd(t: Tablet, e: Bytes) returns (key: Bytes)
    requires ValidRange(t) && (t.end == [] || LexLt(e, t.end))
    ensures Contains(t, key) && !LexLt(key, e)
  {
    LexAsym(t.start, t.start);
    LexAsym(e, e);
    LexAsym(e, t.start);
    key := if LexLt(e, t.start) then t.start else e;
  }

  lemma OverlapIff(ms: seq<Meta>, i: nat, w: nat)
    requires InOrder(ms) && i < |ms| && Farthest(ms, i, w) && ms[w].table == ms[i].table && ValidRange(ms[i].tablet)
    ensures OverlapAt(ms, i) <==>
              var e, t := ms[w].tablet.end, ms[i].tablet;
              e != [] && LexLt(t.start, e) && (t.end == [] || LexLt(e, t.end))
  {
    var e, t := ms[w].tablet.end, ms[i].tablet;
    LexAsym(t.start, t.start);
    if e != [] && LexLt(t.start, e) && (t.end == [] || LexLt(e, t.end)) {
      InEarlierIff(ms, i, w, t.start);
      var key := PastEnd(t, e);
      InEarlierIff(ms, i, w, key);
    }
    if OverlapAt(ms, i) {
      var key :| Contains(t, key) && InEarlier(ms, i, key);
      InEarlierIff(ms, i, w, key);
      LexTotal(t.start, key);
      if e != [] && t.start != key { LexTrans(t.start, key, e); }
      CoveredIff(ms, i, w);
    }
  }

  /** Against the end of another table. */
  lemma OtherTableFindings(ms: seq<Meta>, i: nat, w: nat)
    requires InOrder(ms) && i < |ms| && Farthest(ms, i, w) && ms[w].table != ms[i].table && ValidRange(ms[i].tablet)
    ensures MissEndAt(ms, i) <==> ms[w].tablet.end != []
    ensures MissStartAt(ms, i) <==> ms[i].tablet.start != []
    ensures !MissGapAt(ms, i) && !CoveredAt(ms, i) && !OverlapAt(ms, i)
  {
    EarlierIff(ms, i, w);
    FirstFindings(ms, i);
    var q := LastValidOf(ms, i, w);
    forall q': nat | LastValid(ms, i, q') ensures q' == q {
      LastValidUnique(ms, i, q, q');
    }
    var e := ms[w].tablet.end;
    LexAsym(e, e);
    AboveEarlierIff(ms, i, w, e);
    if MissEndAt(ms, i) {
      var key :| AboveEarlier(ms, i, ms[q].table, key);
      AboveEarlierIff(ms, i, w, key);
    }
  }

  /** The first tablet of its table. */
  lemma FirstFindings(ms: seq<Meta>, i: nat)
    requires i < |ms| && !HasEarlier(ms, i) && ValidRange(ms[i].tablet)
    ensures MissStartAt(ms, i) <==> ms[i].tablet.start != []
    ensures !MissGapAt(ms, i) && !CoveredAt(ms, i) && !OverlapAt(ms, i)
  {
    var t := ms[i].tablet;
    LexAsym(t.start, t.start);
    assert Contains(t, t.start);
    BelowAllIff(t, []);
    if key :| BelowAll(t, key) { BelowAllIff(t, key); }
  }

  const Nobody := Meta([], Tablet([], [], []))

  /** What the check carries from tablet to tablet. */
  ghost predicate Carries(ms: seq<Meta>, i: nat, last: Meta, w: nat)
    requires i <= |ms|
  {
    if NoneValid(ms, i) then last == Nobody else Farthest(ms, i, w) && last == ms[w]
  }

  /** The comparisons find exactly what there is to report. */
  lemma ComparedIsFindings(ms: seq<Meta>, i: nat, last: Meta, w: nat)
    requires InOrder(ms) && i < |ms| && ms[i].table != [] && Carries(ms, i, last, w) && ValidRange(ms[i].tablet)
    ensures Compared(ms[i], last, last.tablet.end == []) == FindingsAt(ms, i)
  {
    EmptyIff(ms[i].tablet);
    if NoneValid(ms, i) {
      NothingBefore(ms, i);
      FirstFindings(ms, i);
    } else if ms[w].table == ms[i].table {
      SameTableFindings(ms, i, w);
      ComparedSame(ms[i], ms[w]);
    } else {
      OtherTableFindings(ms, i, w);
    }
  }

  lemma NothingBefore(ms: seq<Meta>, i: nat)
    requires i < |ms| && NoneValid(ms, i)
    ensures !HasEarlier(ms, i) && !MissEndAt(ms, i)
  {
  }

  /** The branches for a tablet of the same table, as conditions that exclude each other. */
  lemma ComparedSame(meta: Meta, last: Meta)
    requires meta.table == last.table && ValidRange(meta.tablet)
    ensures var e, t := last.tablet.end, meta.tablet;
            Compared(meta, last, e == []) ==
            If(e != [] && LexLt(e, t.start), MissGap) + If(e == [] || (t.end != [] && !LexLt(e, t.end)), Covered) +
            If(e != [] && LexLt(t.start, e) && (t.end == [] || LexLt(e, t.end)), Overlap)
  {
    var e, t := last.tablet.end, meta.tablet;
    LexTotal(e, t.start);
    LexAsym(e, t.start);
    LexAsym(t.start, t.start);
    if e != [] && !LexLt(t.start, e) && t.end != [] {
      if e != t.start { LexTrans(e, t.start, t.end); }
      LexAsym(e, t.end);
    }
  }

  /** Afterwards the last tablet not covered is this one, unless it is covered. */
  lemma CarriesNext(ms: seq<Meta>, i: nat, last: Meta, w: nat)
    requires InOrder(ms) && i < |ms| && Carries(ms, i, last, w)
    ensures !ValidRange(ms[i].tablet) ==> Carries(ms, i + 1, last, w)
    ensures ValidRange(ms[i].tablet) && CoveredAt(ms, i) ==> Carries(ms, i + 1, last, w)
    ensures ValidRange(ms[i].tablet) && !CoveredAt(ms, i) ==> Carries(ms, i + 1, ms[i], i)
  {
    if !ValidRange(ms[i].tablet) {
      CarriesInvalid(ms, i, last, w);
    } else if HasEarlier(ms, i) {
      CarriesSame(ms, i, last, w);
    } else {
      CarriesFirst(ms, i);
    }
  }

  lemma CarriesInvalid(ms: seq<Meta>, i: nat, last: Meta, w: nat)
    requires i < |ms| && Carries(ms, i, last, w) && !ValidRange(ms[i].tablet)
    ensures Carries(ms, i + 1, last, w)
  {
  }

  lemma CarriesFirst(ms: seq<Meta>, i: nat)
    requires i < |ms| && ValidRange(ms[i].tablet) && !HasEarlier(ms, i)
    ensures !CoveredAt(ms, i) && Carries(ms, i + 1, ms[i], i)
  {
    FirstFindings(ms, i);
    LexAsym(ms[i].tablet.end, ms[i].tablet.end);
    assert forall j: nat :: j < i && ValidRange(ms[j].tablet) && ms[j].table == ms[i].table ==> Earlier(ms, i, j);
  }

  lemma CarriesSame(ms: seq<Meta>, i: nat, last: Meta, w: nat)
    requires InOrder(ms) && i < |ms| && ValidRange(ms[i].tablet) && HasEarlier(ms, i) && Carries(ms, i, last, w)
    ensures CoveredAt(ms, i) ==> Carries(ms, i + 1, last, w)
    ensures !CoveredAt(ms, i) ==> Carries(ms, i + 1, ms[i], i)
  {
    SomeValid(ms, i);
    EarlierIff(ms, i, w);
    CoveredIff(ms, i, w);
    if CoveredAt(ms, i) {
      FarthestStays(ms, i, w);
    } else {
      FarthestNow(ms, i, w);
    }
  }

  lemma SomeValid(ms: seq<Meta>, i: nat)
    requires i < |ms| && HasEarlier(ms, i)
    ensures !NoneValid(ms, i)
  {
    var j: nat :| Earlier(ms, i, j);
    assert ValidRange(ms[j].tablet);
  }

  lemma FarthestStays(ms: seq<Meta>, i: nat, w: nat)
    requires i < |ms| && Farthest(ms, i, w) && ms[w].table == ms[i].table
    requires EndsBy(ms[i].tablet.end, ms[w].tablet.end)
    ensures Farthest(ms, i + 1, w)
  {
  }

  lemma FarthestNow(ms: seq<Meta>, i: nat, w: nat)
    requires i < |ms| && Farthest(ms, i, w) && ms[w].table == ms[i].table && ValidRange(ms[i].tablet)
    requires ms[w].tablet.end != [] && (ms[i].tablet.end == [] || LexLt(ms[w].tablet.end, ms[i].tablet.end))
    ensures Farthest(ms, i + 1, i)
  {
    var t := ms[i].tablet;
    LexAsym(t.end, t.end);
    forall j | 0 <= j < i + 1 && ValidRange(ms[j].tablet) && ms[j].table == ms[i].table
      ensures EndsBy(ms[j].tablet.end, t.end)
    {
      if j < i && t.end != [] && LexLt(t.end, ms[j].tablet.end) {
        LexTrans(ms[w].tablet.end, t.end, ms[j].tablet.end);
      }
    }
  }

  // ---------- the check ----------

  /** The reports about one tablet: `last` is the last tablet not covered, `tableStart`
      says that its table is complete.  Also whether this one is covered. */
  method CheckTablet(meta: Meta, last: Meta, tableStart: bool, i: nat) returns (found: seq<Report>, covered: bool)
    ensures found == ReportsOf(i, Compared(meta, last, tableStart))
    ensures covered <==> Covered in Compared(meta, last, tableStart)
  {
    found, covered := [], false;
    var start := tableStart;
    LexAsym(meta.tablet.start, last.tablet.end);
    LexAsym(meta.tablet.start, meta.tablet.start);
    if !start {
      if meta.table != last.table {
        found := found + [Report(i, MissEnd)];
        start := true;
      } else if LexLt(last.tablet.end, meta.tablet.start) {
        found := found + [Report(i, MissGap)];
      } else if meta.tablet.start == last.tablet.end {
      } else if meta.tablet.end != [] && !LexLt(last.tablet.end, meta.tablet.end) {
        found := found + [Report(i, Covered)];
        covered := true;
      } else {
        found := found + [Report(i, Overlap)];
      }
    }
    if start {
      if meta.table == last.table {
        found := found + [Report(i, Covered)];
        covered := true;
      } else if meta.tablet.start != [] {
        found := found + [Report(i, MissStart)];
      }
    }
  }

  lemma ComparedSilent(meta: Meta, last: Meta)
    requires ValidRange(meta.tablet)
    ensures var tableStart := last.tablet.end == [];
            Compared(meta, last, tableStart) == [] <==>
              (if tableStart then meta.table != last.table && meta.tablet.start == []
               else meta.table == last.table && meta.tablet.start == last.tablet.end)
  {
    LexAsym(meta.tablet.start, meta.tablet.start);
  }

  /** The pass so far: silent exactly as long as each tablet follows the one before it, and on
      a list in order it has reported exactly what there is to report. */
  ghost predicate Checked(ms: seq<Meta>, i: nat, reports: seq<Report>, last: Meta, w: nat)
    requires i <= |ms|
  {
    && (reports == [] <==> FollowUpTo(ms, i))
    && (reports == [] ==> last == if i == 0 then Nobody else ms[i - 1])
    && (InOrder(ms) ==> reports == Findings(ms, i) && Carries(ms, i, last, w))
  }

  lemma CheckedInvalid(ms: seq<Meta>, i: nat, reports: seq<Report>, last: Meta, w: nat)
    requires i < |ms| && ms[i].table != [] && Checked(ms, i, reports, last, w) && !ValidRange(ms[i].tablet)
    ensures Checked(ms, i + 1, reports + [Report(i, Invalid)], last, w)
  {
    EmptyIff(ms[i].tablet);
    assert !Follows(ms, i);
    assert ReportsOf(i, [Invalid]) == [Report(i, Invalid)];
    if InOrder(ms) { CarriesNext(ms, i, last, w); }
  }

  lemma CheckedNext(ms: seq<Meta>, i: nat, reports: seq<Report>, last: Meta, w: nat)
    requires i < |ms| && ms[i].table != [] && Checked(ms, i, reports, last, w) && ValidRange(ms[i].tablet)
    ensures var found := Compared(ms[i], last, last.tablet.end == []);
            if Covered in found then Checked(ms, i + 1, reports + ReportsOf(i, found), last, w)
            else Checked(ms, i + 1, reports + ReportsOf(i, found), ms[i], i)
  {
    var found := Compared(ms[i], last, last.tablet.end == []);
    ComparedSilent(ms[i], last);
    assert FollowUpTo(ms, i + 1) <==> FollowUpTo(ms, i) && Follows(ms, i);
    assert |ReportsOf(i, found)| == |found|;
    if InOrder(ms) {
      ComparedIsFindings(ms, i, last, w);
      EmptyIff(ms[i].tablet);
      CarriesNext(ms, i, last, w);
      FoundCovered(ms, i, found);
    }
  }

  lemma FoundCovered(ms: seq<Meta>, i: nat, found: seq<Finding>)
    requires i < |ms| && found == FindingsAt(ms, i) && !Empty(ms[i].tablet)
    ensures Covered in found <==> CoveredAt(ms, i)
  {
    var a := If(MissEndAt(ms, i), MissEnd) + If(MissStartAt(ms, i), MissStart) + If(MissGapAt(ms, i), MissGap);
    var b, c := If(CoveredAt(ms, i), Covered), If(OverlapAt(ms, i), Overlap);
    assert found == a + b + c;
    assert Covered !in a && Covered !in c;
    if CoveredAt(ms, i) { assert (a + b + c)[|a|] == Covered; }
  }

  lemma CheckedEnd(ms: seq<Meta>, reports: seq<Report>, last: Meta, w: nat)
    requires Checked(ms, |ms|, reports, last, w)
    ensures reports == [] && last.tablet.end == [] <==> AllTile(ms)
    ensures reports == [] <==> FollowUpTo(ms, |ms|)
    ensures InOrder(ms) ==> reports == Findings(ms, |ms|)
  {
    AllTileIff(ms);
  }

  /** The check is silent, and the last table complete, exactly when every table's tablets
      tile the key space; on a meta table in order it reports exactly what there is to report,
      tablet by tablet. */
  method ProcessMeta(ms: seq<Meta>) returns (reports: seq<Report>, tableStart: bool)
    requires forall i :: 0 <= i < |ms| ==> ms[i].table != []
    ensures reports == [] && tableStart <==> AllTile(ms)
    ensures reports == [] <==> FollowUpTo(ms, |ms|)
    ensures InOrder(ms) ==> reports == Findings(ms, |ms|)
  {
    reports, tableStart := [], true;
    var last := Nobody;
    ghost var w: nat := 0;
    var i: nat := 0;
    while i < |ms|
      invariant i <= |ms| && Checked(ms, i, reports, last, w)
      invariant tableStart <==> last.tablet.end == []
    {
      reports, last, tableStart, w := CheckNext(ms, i, reports, last, tableStart, w);
      i := i + 1;
    }
    CheckedEnd(ms, reports, last, w);
  }

  /** One turn of the loop; an invalid tablet is reported and ignored. */
  method CheckNext(ms: seq<Meta>, i: nat, reports: seq<Report>, last: Meta, tableStart: bool, ghost w: nat)
    returns (reports': seq<Report>, last': Meta, tableStart': bool, ghost w': nat)
    requires i < |ms| && ms[i].table != [] && Checked(ms, i, reports, last, w)
    requires tableStart <==> last.tablet.end == []
    ensures Checked(ms, i + 1, reports', last', w') && (tableStart' <==> last'.tablet.end == [])
  {
    var meta := ms[i];
    last', tableStart', w' := last, tableStart, w;
    if meta.tablet.end != [] && !LexLt(meta.tablet.start, meta.tablet.end) {
      CheckedInvalid(ms, i, reports, last, w);
      reports' := reports + [Report(i, Invalid)];
      return;
    }
    CheckedNext(ms, i, reports, last, w);
    var found, covered := CheckTablet(meta, last, tableStart, i);
    reports' := reports + found;
    if !covered {
      last', w' := meta, i;
      tableStart' := meta.tablet.end == [];
    }
  }

  // ---------- check after repair ----------

  function MetasOf(table: Bytes, s: seq<Tablet>): seq<Meta> {
    seq(|s|, i requires 0 <= i < |s| => Meta(table, s[i]))
  }

  /** The check has nothing to report about a repaired table. */
  lemma RepairedIsSilent(table: Bytes, s: seq<Tablet>)
    requires table != [] && Tiles(s)
    ensures AllTile(MetasOf(table, s))
  {
    var ms := MetasOf(table, s);
    forall i | 0 <= i < |ms| ensures Follows(ms, i) {
      assert i > 0 ==> s[i].start == s[i - 1].end;
    }
    AllTileIff(ms);
  }

  /** Repair, then check: silent, and the table complete. */
  method RepairAndCheck(c: Catalogue, entries: seq<Tablet>) returns (reports: seq<Report>, tableStart: bool)
    requires c.table != [] && entries != [] && Ordered(entries) && Apart(entries) && Listed(c, entries)
    ensures reports == [] && tableStart
  {
    var m := new TabletMap(entries);
    m.FixTabletGap(c);
    RepairedIsSilent(c.table, m.entries);
    reports, tableStart := ProcessMeta(MetasOf(c.table, m.entries));
  }
}

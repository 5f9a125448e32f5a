/** When a compaction may change what readers see.  Marks are honoured only where no live
    cell of their row or family comes before them, and an empty family or qualifier name
    lets one: reads are preserved in every tablet exactly when both names are excluded. */
module CompactionNames {
  import opened Bytes
  import opened Cells
  import opened Frontier
  import opened Strategy
  import opened Visibility
  import opened ReadSemantics
  import opened Discarding
  import opened Compaction
  import opened CompactionLoop
  import opened CompactionReads

  /** The job rewrites the entries `c` of `e`, and a reader no older looks at the result. */
  ghost predicate Rewriting(j: Job, env: Env, e: set<Cell>, c: set<Cell>, s: nat) {
    && Entries(e) && c <= e && Reads(j, env, s)
    && forall x :: x in e && x !in c ==> !MarkDroppable(j.snapshot, j.bound, x.row)
  }

  /** `before` and `after` are what that reader iterates without and with the compaction. */
  ghost predicate Iterated(j: Job, e: set<Cell>, c: set<Cell>, s: nat, before: seq<Cell>, after: seq<Cell>) {
    && Sorted(before) && Elems(before) == Newest(e, s)
    && Sorted(after) && Elems(after) == Newest(Compacted(j, c) + (e - c), s)
  }

  ghost predicate Preserved(j: Job, env: Env, e: set<Cell>, c: set<Cell>, s: nat) {
    forall before, after :: Iterated(j, e, c, s, before, after) ==>
      ScanRun(env, Fresh, after) == ScanRun(env, Fresh, before)
  }

  ghost predicate AlwaysPreserved(n: Naming) {
    forall j, env, e, c, s :: Rewriting(j, env, e, c, s) && Follows(n, e) ==> Preserved(j, env, e, c, s)
  }

  // ---------- a mark that another file's cell disables ----------

  /** `x` comes before the mark `m` in the mark's scope and keeps readers from honouring it;
      a compaction of `m` and `v` without `x` honours it. */
  ghost predicate Disabled(env: Env, x: Cell, m: Cell, v: Cell) {
    && Entries({x, m, v}) && Before(x, m) && Before(m, v) && Before(x, v)
    && Live(env, m) && v.kind.Value? && m.ts >= v.ts && v.seqno <= m.seqno && x.seqno <= m.seqno
    && ((m.kind.Del? && SameRow(m, v)) || (m.kind.DelColumn? && SameCol(m, v)))
    && v in ScanRun(env, Fresh, [x, m, v])
  }

  lemma NewestOfFew(h: set<Cell>, s: nat)
    requires Distinct(h) && forall x :: x in h ==> x.seqno <= s
    ensures Newest(h, s) == h
  {
    forall x, y | x in h && y in h && SameKey(y, x) ensures x == y {
      KeyUnique(h, x, y);
    }
  }

  /** Drop removes the put and keeps the mark. */
  lemma MarkTakesPut(j: Job, m: Cell, v: Cell)
    requires j.bound == NoBound && j.snapshot == m.seqno && v.seqno <= m.seqno && Distinct({m, v})
    requires Before(m, v) && Live(j.env, m) && v.kind.Value? && m.ts >= v.ts
    requires (m.kind.Del? && SameRow(m, v)) || (m.kind.DelColumn? && SameCol(m, v))
    ensures Compacted(j, {m, v}) == {m}
  {
    var c := {m, v};
    NewestOfFew(c, j.snapshot);
    BeforeAsym(m, v);
    BeforeAsym(m, m);
    BeforeAsym(v, v);
    assert Upto(c, m) == {};
    assert Upto(c, v) == {m};
    if m.kind.Del? {
      assert RowKills(j.env, {m}, UpTo(j.snapshot), m, v);
    } else {
      assert ColKills(j.env, {m}, UpTo(j.snapshot), m, v);
    }
    assert Gone(j, c, v);
    assert !Gone(j, c, m);
  }

  lemma {:induction false} ScanOfInput(env: Env, st: State, h: seq<Cell>, x: Cell)
    requires x in ScanRun(env, st, h)
    ensures x in h
    decreases |h|
  {
    if x != h[0] { ScanOfInput(env, ScanStep(env, st, h[0]).0, h[1..], x); }
  }

  /** The put was readable and is gone. */
  lemma DisabledMarkLosesPut(env: Env, x: Cell, m: Cell, v: Cell)
    requires Disabled(env, x, m, v)
    ensures var j := Job(env, m.seqno, NoBound);
            Rewriting(j, env, {x, m, v}, {m, v}, m.seqno) && !Preserved(j, env, {x, m, v}, {m, v}, m.seqno)
  {
    var j, e, c, s := Job(env, m.seqno, NoBound), {x, m, v}, {m, v}, m.seqno;
    BeforeAsym(x, m);
    BeforeAsym(x, v);
    BeforeAsym(m, v);
    MarkTakesPut(j, m, v);
    var before, after := [x, m, v], [x, m];
    NewestOfFew(e, s);
    NewestOfFew({x, m}, s);
    assert e - c == {x};
    assert {m} + {x} == {x, m};
    assert Elems(before) == e;
    assert Elems(after) == {x, m};
    assert Iterated(j, e, c, s, before, after);
    if v in ScanRun(env, Fresh, after) { ScanOfInput(env, Fresh, after, v); }
  }

  // ---------- the two names that disable marks ----------

  const A_ROW: Bytes := [1]
  const A_NAME: Bytes := [1]

  /** A put with an empty qualifier comes before its family's older mark. */
  lemma EmptyQualifierDisables()
    returns (env: Env, x: Cell, m: Cell, v: Cell)
    ensures Disabled(env, x, m, v) && Follows(Naming(false, true), {x, m, v})
  {
    env := Env(map[A_NAME := Family(1, 0)], 0);
    x := Cell(A_ROW, A_NAME, [], 10, Kind.Value, 1, []);
    m := Cell(A_ROW, A_NAME, [], 5, Kind.DelColumn, 3, []);
    v := Cell(A_ROW, A_NAME, A_NAME, 3, Kind.Value, 2, []);
    ReadsThird(env, x, m, v);
  }

  /** A mark of the family with the empty name comes before its row's older mark. */
  lemma EmptyFamilyDisables()
    returns (env: Env, x: Cell, m: Cell, v: Cell)
    ensures Disabled(env, x, m, v) && Follows(Naming(true, false), {x, m, v})
  {
    env := Env(map[[] := Family(1, 0), A_NAME := Family(1, 0)], 0);
    x := Cell(A_ROW, [], [], 10, Kind.DelColumn, 1, []);
    m := Cell(A_ROW, [], [], 5, Kind.Del, 3, []);
    v := Cell(A_ROW, A_NAME, A_NAME, 3, Kind.Value, 2, []);
    ReadsThird(env, x, m, v);
  }

  lemma ReadsThird(env: Env, x: Cell, m: Cell, v: Cell)
    requires var s1 := ScanStep(env, Fresh, x).0; !ScanStep(env, ScanStep(env, s1, m).0, v).1
    ensures v in ScanRun(env, Fresh, [x, m, v])
  {
    var h := [x, m, v];
    var s1 := ScanStep(env, Fresh, x).0;
    assert h[1..] == [m, v] && h[1..][1..] == [v];
    ScanRunUnfold(env, Fresh, h);
    ScanRunUnfold(env, s1, h[1..]);
    ScanRunUnfold(env, ScanStep(env, s1, m).0, [v]);
  }

  // ---------- the exact condition ----------

  lemma NonEmptyNamesPreserve(n: Naming)
    requires !n.emptyFamily && !n.emptyQualifier
    ensures AlwaysPreserved(n)
  {
    forall j, env, e, c, s | Rewriting(j, env, e, c, s) && Follows(n, e) ensures Preserved(j, env, e, c, s) {
      NonEmptyNamesMarksFirst(e);
      forall before, after | Iterated(j, e, c, s, before, after)
        ensures ScanRun(env, Fresh, after) == ScanRun(env, Fresh, before)
      {
        CompactionPreservesReads(j, env, e, c, s, before, after);
      }
    }
  }

  lemma DisabledMarkRefutes(n: Naming, env: Env, x: Cell, m: Cell, v: Cell)
    requires Disabled(env, x, m, v) && Follows(n, {x, m, v})
    ensures !AlwaysPreserved(n)
  {
    DisabledMarkLosesPut(env, x, m, v);
  }

  /** Compactions leave every read of every tablet as it was exactly when the table uses
      neither the empty family name nor the empty qualifier. */
  lemma AlwaysPreservedIff(n: Naming)
    ensures AlwaysPreserved(n) <==> !n.emptyFamily && !n.emptyQualifier
  {
    if n.emptyQualifier {
      var env, x, m, v := EmptyQualifierDisables();
      DisabledMarkRefutes(n, env, x, m, v);
    } else if n.emptyFamily {
      var env, x, m, v := EmptyFamilyDisables();
      DisabledMarkRefutes(n, env, x, m, v);
    } else {
      NonEmptyNamesPreserve(n);
    }
  }
}

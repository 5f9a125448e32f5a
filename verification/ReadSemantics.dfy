/** The documented meaning of a read over a history of cells, and the theorem that a
    pass of `ScanDrop` computes it. */
module ReadSemantics {
  import opened Bytes
  import opened Cells
  import opened Frontier
  import opened Strategy
  import opened Visibility

  // ---------- the documented meaning ----------

  ghost predicate RowDeleted(h: set<Cell>, c: Cell) {
    exists m :: m in h && m.kind.Del? && SameRow(m, c) && m.ts >= c.ts
  }

  ghost predicate ColDeleted(h: set<Cell>, c: Cell) {
    exists m :: m in h && m.kind.DelColumn? && SameCol(m, c) && m.ts >= c.ts
  }

  ghost predicate QualDeleted(h: set<Cell>, c: Cell) {
    exists m :: m in h && m.kind.DelQualifiers? && SameCell(m, c) && m.ts >= c.ts
  }

  /** `d` is the cell right before `c` in the column of `c`. */
  ghost predicate Precedes(h: set<Cell>, d: Cell, c: Cell) {
    && d in h && SameCell(d, c) && Before(d, c)
    && forall e :: e in h && SameCell(e, c) && Before(e, c) ==> e == d || Before(e, d)
  }

  ghost predicate OneDeleted(h: set<Cell>, c: Cell) {
    exists d :: Precedes(h, d, c) && d.kind.DelQualifier?
  }

  /** The puts of the column from the newest down to `c`. */
  ghost function Versions(h: set<Cell>, c: Cell): set<Cell> {
    set v | v in h && v.kind.Value? && SameCell(v, c) && (v == c || Before(v, c))
  }

  ghost predicate Visible(env: Env, h: set<Cell>, c: Cell) {
    && c.kind.Value? && Live(env, c)
    && !RowDeleted(h, c) && !ColDeleted(h, c) && !QualDeleted(h, c) && !OneDeleted(h, c)
    && |Versions(h, c)| <= env.schema[c.cf].maxVersions
  }

  /** Row marks come first in their row and column marks first in their family.  A
      store whose families and qualifiers have non-empty names always has this shape. */
  ghost predicate MarksFirst(h: set<Cell>) {
    && (forall e, m :: e in h && m in h && m.kind.Del? && SameRow(e, m) && Before(e, m) ==> e.kind.Del?)
    && (forall e, m :: e in h && m in h && m.kind.DelColumn? && SameCol(e, m) && Before(e, m) ==>
          e.kind.DelColumn? || e.kind.Del?)
  }

  /** Which names the cells of a table may have; marks have the empty names of their shape
      in any case. */
  datatype Naming = Naming(emptyFamily: bool, emptyQualifier: bool)

  ghost predicate Follows(n: Naming, h: set<Cell>) {
    forall c :: c in h ==>
      && (c.kind.Del? || n.emptyFamily || c.cf != [])
      && (c.kind.Del? || c.kind.DelColumn? || n.emptyQualifier || c.qual != [])
  }

  lemma NonEmptyNamesMarksFirst(h: set<Cell>)
    requires AllWellFormed(h) && Follows(Naming(false, false), h)
    ensures MarksFirst(h)
  {
    forall e, m | e in h && m in h && m.kind.Del? && SameRow(e, m) && Before(e, m)
      ensures e.kind.Del?
    {
      LexAsym(e.row, m.row);
    }
    forall e, m | e in h && m in h && m.kind.DelColumn? && SameCol(e, m) && Before(e, m)
      ensures e.kind.DelColumn? || e.kind.Del?
    {
      EmptyQualLeads(e, m);
    }
  }

  // ---------- code and documentation agree on such histories ----------

  lemma {:induction false} FirstOf(s: set<Cell>) returns (m: Cell)
    requires s != {} && Distinct(s)
    ensures m in s && forall e :: e in s ==> e == m || Before(m, e)
    decreases s
  {
    var x :| x in s;
    if s == {x} {
      m := x;
    } else {
      assert s == {x} + (s - {x});
      var m' := FirstOf(s - {x});
      if Before(x, m') {
        m := x;
        forall e | e in s ensures e == m || Before(m, e) {
          if e != x && e != m' { BeforeTrans(x, m', e); }
        }
      } else {
        m := m';
      }
    }
  }

  /** Mark `m` deletes puts of family `cf` that a reader could otherwise see. */
  ghost predicate InScope(env: Env, m: Cell, cf: Bytes) {
    && (m.kind.Del? || (m.kind.DelColumn? && m.cf == cf))
    && cf in env.schema
    && !Expired(env, Cell(m.row, cf, m.qual, m.ts, Kind.Value, 0, []))
  }

  ghost predicate Records(env: Env, h: set<Cell>, m0: Cell, m: Cell, cf: Bytes) {
    m0.row == m.row && m0.ts >= m.ts && (LeadRow(env, h, m0) || (LeadCol(env, h, m0) && m0.cf == cf))
  }

  /** The automaton recorded a mark that deletes at least what `m` deletes in `cf`. */
  ghost predicate Recorded(env: Env, h: set<Cell>, m: Cell, cf: Bytes) {
    exists m0 :: Records(env, h, m0, m, cf)
  }

  ghost predicate MarksRecorded(env: Env, h: set<Cell>) {
    forall m, cf :: m in h && InScope(env, m, cf) ==> Recorded(env, h, m, cf)
  }

  lemma MarksFirstRecorded(env: Env, h: set<Cell>)
    requires AllWellFormed(h) && Distinct(h) && MarksFirst(h)
    ensures MarksRecorded(env, h)
  {
    forall m, cf | m in h && InScope(env, m, cf) ensures Recorded(env, h, m, cf) {
      if m.kind.Del? {
        RowMarkRecorded(env, h, m, cf);
      } else {
        ColMarkRecorded(env, h, m);
      }
    }
  }

  lemma RowMarkRecorded(env: Env, h: set<Cell>, m: Cell, cf: Bytes)
    requires AllWellFormed(h) && Distinct(h) && MarksFirst(h) && m in h && m.kind.Del?
    ensures Recorded(env, h, m, cf)
  {
    var row := set e | e in h && SameRow(e, m);
    assert m in row;
    var m0 := FirstOf(row);
    assert m0.kind.Del? && m0.ts >= m.ts by {
      if m0 != m { NewestFirst(m0, m); }
    }
    forall e | e in h && SameRow(e, m0) ensures !Before(e, m0) {
      assert e in row;
      BeforeAsym(e, m0);
    }
    assert Records(env, h, m0, m, cf);
  }

  lemma ColMarkRecorded(env: Env, h: set<Cell>, m: Cell)
    requires AllWellFormed(h) && Distinct(h) && MarksFirst(h)
    requires m in h && m.kind.DelColumn? && m.cf in env.schema
    ensures Recorded(env, h, m, m.cf)
  {
    var col := set e | e in h && SameCol(e, m);
    assert m in col;
    var m0 := FirstOf(col);
    assert (m0.kind.DelColumn? || m0.kind.Del?) && m0.ts >= m.ts by {
      if m0 != m { EmptyQualLeads(m0, m); NewestFirst(m0, m); }
    }
    if m0.kind.Del? {
      RowMarkRecorded(env, h, m0, m.cf);
      var m1 :| Records(env, h, m1, m0, m.cf);
      assert Records(env, h, m1, m, m.cf);
    } else {
      forall e | e in h && SameCol(e, m0) ensures !Before(e, m0) {
        assert e in col;
        BeforeAsym(e, m0);
      }
      assert Records(env, h, m0, m, m.cf);
    }
  }

  /** Leading is a matter of what comes before, so any cut above the mark agrees. */
  lemma LeadUpto(env: Env, h: set<Cell>, m: Cell, c: Cell)
    requires m in h && Before(m, c)
    ensures LeadRow(env, Upto(h, c), m) <==> LeadRow(env, h, m)
    ensures LeadCol(env, Upto(h, c), m) <==> LeadCol(env, h, m)
  {
    forall e | e in h && Before(e, m) ensures e in Upto(h, c) { BeforeTrans(e, m, c); }
  }

  /** A mark stands before every put it can delete. */
  lemma MarkBeforePut(m: Cell, x: Cell)
    requires WellFormed(m) && x.kind.Value? && m.ts >= x.ts
    requires (m.kind.Del? && SameRow(m, x)) || (m.kind.DelColumn? && SameCol(m, x)) ||
             (m.kind.DelQualifiers? && SameCell(m, x))
    ensures Before(m, x)
  {
  }

  lemma RecordedKills(env: Env, h: set<Cell>, m: Cell, c: Cell)
    requires AllWellFormed(h) && c.kind.Value?
    requires m.row == c.row && m.ts >= c.ts && Recorded(env, h, m, c.cf)
    ensures Killed(env, Upto(h, c), NoLimit, c)
  {
    var m0 :| Records(env, h, m0, m, c.cf);
    MarkBeforePut(m0, c);
    LeadUpto(env, h, m0, c);
    assert RowKills(env, Upto(h, c), NoLimit, m0, c) || ColKills(env, Upto(h, c), NoLimit, m0, c);
  }

  lemma KilledIsDeleted(env: Env, h: set<Cell>, c: Cell)
    requires AllWellFormed(h) && MarksRecorded(env, h) && c.kind.Value? && Live(env, c)
    ensures Killed(env, Upto(h, c), NoLimit, c) <==> RowDeleted(h, c) || ColDeleted(h, c)
  {
    if RowDeleted(h, c) {
      var m :| m in h && m.kind.Del? && SameRow(m, c) && m.ts >= c.ts;
      assert InScope(env, m, c.cf);
      RecordedKills(env, h, m, c);
    }
    if ColDeleted(h, c) {
      var m :| m in h && m.kind.DelColumn? && SameCol(m, c) && m.ts >= c.ts;
      assert InScope(env, m, c.cf);
      RecordedKills(env, h, m, c);
    }
    KilledHasMark(env, h, c);
  }

  lemma KilledHasMark(env: Env, h: set<Cell>, c: Cell)
    ensures Killed(env, Upto(h, c), NoLimit, c) ==> RowDeleted(h, c) || ColDeleted(h, c)
  {
    if RowKilled(env, Upto(h, c), NoLimit, c) {
      var m :| RowKills(env, Upto(h, c), NoLimit, m, c);
      assert m in h;
    }
    if ColKilled(env, Upto(h, c), NoLimit, c) {
      var m :| ColKills(env, Upto(h, c), NoLimit, m, c);
      assert m in h;
    }
  }

  /** Everything above a live put in its column is live. */
  lemma LiveAbove(env: Env, e: Cell, c: Cell)
    requires c.kind.Value? && Live(env, c) && SameCell(e, c) && e.ts >= c.ts
    ensures Live(env, e)
  {
  }

  lemma QualCoveredIsDeleted(env: Env, h: set<Cell>, c: Cell)
    requires Distinct(h) && c in h && c.kind.Value? && Live(env, c)
    ensures QualCovered(env, Upto(h, c), c) <==> QualDeleted(h, c)
  {
    if QualDeleted(h, c) {
      var m :| m in h && m.kind.DelQualifiers? && SameCell(m, c) && m.ts >= c.ts;
      if Before(c, m) { NewestFirst(c, m); SmallerCode(c, m); }
      assert m in Upto(h, c) && Live(env, m);
    }
  }

  lemma OneDeletedSame(env: Env, h: set<Cell>, c: Cell)
    requires c in h && c.kind.Value? && Live(env, c)
    ensures NextIsDeleted(env, Upto(h, c), c) <==> OneDeleted(h, c)
  {
    var p := Upto(h, c);
    forall e | e in p && SameCell(e, c) ensures Live(env, e) {
      NewestFirst(e, c);
      LiveAbove(env, e, c);
    }
    if NextIsDeleted(env, p, c) {
      var d :| LastDelQualifier(env, p, d, c);
      assert Precedes(h, d, c);
    }
    if OneDeleted(h, c) {
      var d :| Precedes(h, d, c) && d.kind.DelQualifier?;
      assert LastDelQualifier(env, p, d, c);
    }
  }

  lemma CountedIsVersions(env: Env, h: set<Cell>, c: Cell)
    requires c in h && c.kind.Value? && Live(env, c)
    requires !RowDeleted(h, c) && !ColDeleted(h, c)
    ensures CountedPuts(env, Upto(h, c) + {c}, c) == Versions(h, c)
  {
    var p := Upto(h, c) + {c};
    forall v | v in p && v.kind.Value? && SameCell(v, c) ensures Live(env, v) && !Uncounted(p, v) {
      if v != c { NewestFirst(v, c); }
      LiveAbove(env, v, c);
    }
  }

  /** Where every mark is recorded, what ScanDrop keeps is what the documentation
      calls visible. */
  lemma KeptIsVisible(env: Env, h: set<Cell>, c: Cell)
    requires AllWellFormed(h) && Distinct(h) && MarksRecorded(env, h) && c in h
    ensures Kept(env, Upto(h, c), c) <==> Visible(env, h, c)
  {
    if c.kind.Value? && Live(env, c) {
      KilledIsDeleted(env, h, c);
      QualCoveredIsDeleted(env, h, c);
      OneDeletedSame(env, h, c);
      if !RowDeleted(h, c) && !ColDeleted(h, c) { CountedIsVersions(env, h, c); }
    }
  }

  // ---------- whole streams ----------

  lemma UptoHead(p: set<Cell>, h: seq<Cell>)
    requires h != [] && Sorted(h) && After(p, h[0])
    ensures Upto(p + Elems(h), h[0]) == p
  {
    forall e | e in Elems(h) ensures !Before(e, h[0]) {
      BeforeAsym(e, h[0]);
    }
  }

  lemma ElemsHead(p: set<Cell>, h: seq<Cell>)
    requires h != []
    ensures p + Elems(h) == p + {h[0]} + Elems(h[1..])
  {
    assert h == [h[0]] + h[1..];
  }

  function Prepend(keep: bool, x: Cell, rest: seq<Cell>): seq<Cell> {
    (if keep then [x] else []) + rest
  }

  lemma PrependSorted(keep: bool, x: Cell, rest: seq<Cell>, out: seq<Cell>)
    requires Sorted(out) && (forall c :: c in out ==> c in rest) && (forall c :: c in rest ==> Before(x, c))
    ensures Sorted(Prepend(keep, x, out))
    ensures forall c :: c in Prepend(keep, x, out) <==> (c == x && keep) || c in out
  {
  }

  lemma TailAfter(p: set<Cell>, h: seq<Cell>)
    requires h != [] && Sorted(h) && (forall c :: c in h ==> After(p, c))
    ensures forall c :: c in h[1..] ==> Before(h[0], c) && After(p + {h[0]}, c) && c != h[0]
    ensures Sorted(h[1..]) && forall c :: c in h <==> c == h[0] || c in h[1..]
  {
    assert h == [h[0]] + h[1..];
    forall c | c in h[1..] ensures Before(h[0], c) && After(p + {h[0]}, c) && c != h[0] {
      var i :| 0 <= i < |h[1..]| && h[1..][i] == c;
      assert h[i + 1] == c;
      BeforeAsym(h[0], c);
      assert c in h;
    }
  }

  lemma ScanRunUnfold(env: Env, st: State, h: seq<Cell>)
    requires h != []
    ensures var (s, dropped) := ScanStep(env, st, h[0]);
            ScanRun(env, st, h) == Prepend(!dropped, h[0], ScanRun(env, s, h[1..]))
  {
  }

  /** A read pass from any point of a stream: it keeps exactly the puts and the atomic
      operations the automaton's own rule keeps, in their order. */
  lemma {:induction false} ScanRunKeeps(env: Env, p: set<Cell>, st: State, h: seq<Cell>)
    requires Sorted(h) && Stream(p + Elems(h)) && (forall c :: c in h ==> After(p, c))
    requires ScanInv(env, p, st)
    ensures Sorted(ScanRun(env, st, h))
    ensures forall c :: c in ScanRun(env, st, h) <==>
              c in h && (Kept(env, Upto(p + Elems(h), c), c) || KeptAtomic(env, Upto(p + Elems(h), c), c))
    decreases |h|
  {
    if h != [] {
      var x, rest := h[0], h[1..];
      assert x in p + Elems(h);
      ScanStepVerdict(env, p, st, x);
      ScanStepInv(env, p, st, x);
      var step := ScanStep(env, st, x);
      ElemsHead(p, h);
      UptoHead(p, h);
      TailAfter(p, h);
      ScanRunKeeps(env, p + {x}, step.0, rest);
      ScanRunUnfold(env, st, h);
      PrependSorted(!step.1, x, rest, ScanRun(env, step.0, rest));
    }
  }

  /** ScanDrop over a whole history computes the documented read. */
  lemma ScanIsVisible(env: Env, h: seq<Cell>)
    requires Sorted(h) && History(Elems(h)) && MarksFirst(Elems(h))
    ensures Sorted(ScanRun(env, Fresh, h))
    ensures forall c :: c in ScanRun(env, Fresh, h) <==> c in h && Visible(env, Elems(h), c)
  {
    FreshInv(env);
    assert {} + Elems(h) == Elems(h);
    ScanRunKeeps(env, {}, Fresh, h);
    MarksFirstRecorded(env, Elems(h));
    forall c | c in h ensures Kept(env, Upto(Elems(h), c), c) <==> Visible(env, Elems(h), c) {
      KeptIsVisible(env, Elems(h), c);
    }
  }

  // ---------- exactly which marks a reader honours ----------

  /** A put in a column of its own, not expired, in a family that keeps a version. */
  ghost predicate FreshPut(env: Env, h: set<Cell>, x: Cell) {
    && WellFormed(x) && x.kind.Value? && Live(env, x) && x.qual != []
    && forall e :: e in h ==> !SameCell(e, x)
  }

  ghost predicate HonoursMarks(env: Env, h: set<Cell>) {
    forall x :: FreshPut(env, h, x) ==> (Kept(env, Upto(h + {x}, x), x) <==> Visible(env, h + {x}, x))
  }

  lemma FreshAlone(env: Env, h: set<Cell>, x: Cell)
    requires FreshPut(env, h, x) && env.schema[x.cf].maxVersions >= 1
    ensures Kept(env, Upto(h + {x}, x), x) <==> !Killed(env, Upto(h, x), NoLimit, x)
    ensures Visible(env, h + {x}, x) <==> !RowDeleted(h, x) && !ColDeleted(h, x)
  {
    BeforeAsym(x, x);
    assert Upto(h + {x}, x) == Upto(h, x);
    assert CountedPuts(env, Upto(h, x) + {x}, x) <= {x};
    AtMostOne(CountedPuts(env, Upto(h, x) + {x}, x), x);
    assert Versions(h + {x}, x) == {x};
    assert !QualDeleted(h + {x}, x);
    assert RowDeleted(h + {x}, x) <==> RowDeleted(h, x);
    assert ColDeleted(h + {x}, x) <==> ColDeleted(h, x);
  }

  lemma AtMostOne(s: set<Cell>, x: Cell)
    requires s <= {x}
    ensures |s| <= 1
  {
    assert s == {} || s == {x};
  }

  lemma {:induction false} LongQualifier(h: set<Cell>) returns (n: nat)
    ensures forall e :: e in h ==> |e.qual| < n
    ensures n >= 1
    decreases h
  {
    if h == {} {
      n := 1;
    } else {
      var x :| x in h;
      n := LongQualifier(h - {x});
      if |x.qual| >= n { n := |x.qual| + 1; }
    }
  }

  lemma FreshFor(env: Env, h: set<Cell>, m: Cell, cf: Bytes) returns (x: Cell)
    requires m in h && AllWellFormed(h) && InScope(env, m, cf)
    ensures FreshPut(env, h, x) && x.row == m.row && x.cf == cf && x.ts == m.ts
  {
    var n := LongQualifier(h);
    var q: Bytes := seq(n, i => 0);
    x := Cell(m.row, cf, q, m.ts, Kind.Value, 0, []);
  }

  /** A reader honours the row and column marks of a history, on every column that could
      be written, if and only if each of them is recorded: it opens its row (its family),
      or a mark that does is at least as new. */
  lemma HonoursMarksIff(env: Env, h: set<Cell>)
    requires AllWellFormed(h) && (forall cf :: cf in env.schema ==> env.schema[cf].maxVersions >= 1)
    ensures HonoursMarks(env, h) <==> MarksRecorded(env, h)
  {
    if MarksRecorded(env, h) {
      forall x | FreshPut(env, h, x)
        ensures Kept(env, Upto(h + {x}, x), x) <==> Visible(env, h + {x}, x)
      {
        FreshAlone(env, h, x);
        KilledIsDeleted(env, h, x);
      }
    }
    if HonoursMarks(env, h) {
      forall m, cf | m in h && InScope(env, m, cf) ensures Recorded(env, h, m, cf) {
        var x := FreshFor(env, h, m, cf);
        FreshAlone(env, h, x);
        assert RowDeleted(h, x) || ColDeleted(h, x);
        assert Killed(env, Upto(h, x), NoLimit, x);
        KilledWasRecorded(env, h, m, x);
      }
    }
  }

  lemma KilledWasRecorded(env: Env, h: set<Cell>, m: Cell, x: Cell)
    requires Killed(env, Upto(h, x), NoLimit, x) && x.row == m.row && x.ts == m.ts
    ensures Recorded(env, h, m, x.cf)
  {
    var p := Upto(h, x);
    if RowKilled(env, p, NoLimit, x) {
      var m0 :| RowKills(env, p, NoLimit, m0, x);
      LeadUpto(env, h, m0, x);
      assert Records(env, h, m0, m, x.cf);
    } else {
      var m0 :| ColKills(env, p, NoLimit, m0, x);
      LeadUpto(env, h, m0, x);
      assert Records(env, h, m0, m, x.cf);
    }
  }

  /** Without that, deletions are lost: a newer cell with an empty qualifier makes the
      reader pass over the family's mark, and an older put stays readable. */
  lemma ColumnDeletionLost(row: Bytes, cf: Bytes, q: Bytes)
    requires row != [] && q != []
    ensures var env := Env(map[cf := Family(1, 0)], 0);
            var newer := Cell(row, cf, [], 10, Kind.Value, 1, []);
            var mark := Cell(row, cf, [], 5, Kind.DelColumn, 2, []);
            var older := Cell(row, cf, q, 3, Kind.Value, 3, []);
            var h := [newer, mark, older];
            && Sorted(h) && ColDeleted(Elems(h), older)
            && ScanRun(env, Fresh, h) == [newer, older]
  {
    var env := Env(map[cf := Family(1, 0)], 0);
    var newer := Cell(row, cf, [], 10, Kind.Value, 1, []);
    var mark := Cell(row, cf, [], 5, Kind.DelColumn, 2, []);
    var older := Cell(row, cf, q, 3, Kind.Value, 3, []);
    var h := [newer, mark, older];
    assert mark in Elems(h);
    var s1 := ScanStep(env, Fresh, newer);
    var s2 := ScanStep(env, s1.0, mark);
    var s3 := ScanStep(env, s2.0, older);
    assert !s1.1 && s2.1 && !s3.1;
    assert h[1..] == [mark, older] && h[1..][1..] == [older];
    ScanRunUnfold(env, Fresh, h);
    ScanRunUnfold(env, s1.0, h[1..]);
    ScanRunUnfold(env, s2.0, [older]);
    assert ScanRun(env, s3.0, []) == [];
  }

  // ---------- deleting one version ----------

  /** The documentation's rule: the version with exactly the mark's timestamp. */
  ghost predicate VersionDeleted(h: set<Cell>, c: Cell) {
    exists d :: d in h && d.kind.DelQualifier? && SameCell(d, c) && d.ts == c.ts
  }

  /** All of visibility but the deletion of single versions. */
  ghost predicate OtherwiseVisible(env: Env, h: set<Cell>, c: Cell) {
    && c.kind.Value? && Live(env, c)
    && !RowDeleted(h, c) && !ColDeleted(h, c) && !QualDeleted(h, c)
    && |Versions(h, c)| <= env.schema[c.cf].maxVersions
  }

  /** What a read should return by that rule. */
  ghost predicate VisibleAsDocumented(env: Env, h: set<Cell>, c: Cell) {
    OtherwiseVisible(env, h, c) && !VersionDeleted(h, c)
  }

  /** A delete-one-version mark stands right above an older put. */
  ghost predicate BelowOtherMark(h: set<Cell>, c: Cell) {
    exists d :: Precedes(h, d, c) && d.kind.DelQualifier? && d.ts != c.ts
  }

  /** The code deletes whatever put follows the mark: all that the rule says, and the put
      right below a newer mark. */
  lemma OneDeletedSplit(h: set<Cell>, c: Cell)
    requires Distinct(h) && c in h && c.kind.Value?
    ensures OneDeleted(h, c) <==> VersionDeleted(h, c) || BelowOtherMark(h, c)
    ensures !(VersionDeleted(h, c) && BelowOtherMark(h, c))
  {
    if VersionDeleted(h, c) {
      var d :| d in h && d.kind.DelQualifier? && SameCell(d, c) && d.ts == c.ts;
      SameTsPrecedes(h, d, c);
      forall d' | Precedes(h, d', c) ensures d' == d {
        BeforeAsym(d, d');
      }
    }
  }

  /** A read returns what the rule says if and only if no put it would otherwise return
      stands right below a newer delete-one-version mark. */
  lemma DeletesAsDocumentedIff(env: Env, h: seq<Cell>)
    requires Sorted(h) && History(Elems(h)) && MarksFirst(Elems(h))
    ensures (forall c :: c in ScanRun(env, Fresh, h) <==> c in h && VisibleAsDocumented(env, Elems(h), c)) <==>
            (forall c :: c in h && OtherwiseVisible(env, Elems(h), c) ==> !BelowOtherMark(Elems(h), c))
  {
    ScanIsVisible(env, h);
    forall c | c in h
      ensures c in ScanRun(env, Fresh, h) <==>
                VisibleAsDocumented(env, Elems(h), c) && !BelowOtherMark(Elems(h), c)
      ensures BelowOtherMark(Elems(h), c) && OtherwiseVisible(env, Elems(h), c) ==>
                VisibleAsDocumented(env, Elems(h), c)
    {
      if c.kind.Value? { OneDeletedSplit(Elems(h), c); }
    }
  }

  /** Without that, a version is lost that nobody deleted. */
  lemma OlderVersionLost(row: Bytes, cf: Bytes, q: Bytes)
    requires row != []
    ensures var env := Env(map[cf := Family(1, 0)], 0);
            var mark := Cell(row, cf, q, 5, Kind.DelQualifier, 2, []);
            var older := Cell(row, cf, q, 3, Kind.Value, 1, []);
            var h := [mark, older];
            && Sorted(h) && VisibleAsDocumented(env, Elems(h), older)
            && ScanRun(env, Fresh, h) == []
  {
    var env := Env(map[cf := Family(1, 0)], 0);
    var mark := Cell(row, cf, q, 5, Kind.DelQualifier, 2, []);
    var older := Cell(row, cf, q, 3, Kind.Value, 1, []);
    var h := [mark, older];
    assert Elems(h) == {mark, older};
    assert Versions(Elems(h), older) == {older};
    var s1 := ScanStep(env, Fresh, mark);
    var s2 := ScanStep(env, s1.0, older);
    assert s1.1 && s2.1;
    assert h[1..] == [older];
    ScanRunUnfold(env, Fresh, h);
    ScanRunUnfold(env, s1.0, [older]);
    assert ScanRun(env, s2.0, []) == [];
  }

  lemma SameTsPrecedes(h: set<Cell>, d: Cell, c: Cell)
    requires Distinct(h) && c in h && c.kind.Value?
    requires d in h && d.kind.DelQualifier? && SameCell(d, c) && d.ts == c.ts
    ensures Precedes(h, d, c)
  {
    forall e | e in h && SameCell(e, c) && Before(e, c) ensures e == d || Before(e, d) {
      if e != d && Before(d, e) {
        NewestFirst(d, e);
        NewestFirst(e, c);
        SmallerCode(d, e);
        SmallerCode(e, c);
      }
    }
  }
}

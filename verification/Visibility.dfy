/** What a reader sees: the meaning of `ScanDrop` in terms of the cells themselves. */
module Visibility {
  import opened Bytes
  import opened Cells
  import opened Frontier
  import opened Strategy

  function FrontOf(st: State): Front {
    Front(st.lastKey, st.lastCol, st.lastQual, st.delRowTs, st.delColTs)
  }

  // ---------- inside one column ----------

  /** A delete-all-versions mark of the column reaches `c`. */
  ghost predicate QualCovered(env: Env, p: set<Cell>, c: Cell) {
    exists m :: m in p && Live(env, m) && m.kind.DelQualifiers? && SameCell(m, c) && m.ts >= c.ts
  }

  /** `d` is a delete-one-version mark and the last live cell of the column of `c`. */
  ghost predicate LastDelQualifier(env: Env, p: set<Cell>, d: Cell, c: Cell) {
    && d in p && Live(env, d) && d.kind.DelQualifier? && SameCell(d, c)
    && forall e :: e in p && Live(env, e) && SameCell(e, c) ==> e == d || Before(e, d)
  }

  ghost predicate NextIsDeleted(env: Env, p: set<Cell>, c: Cell) {
    exists d :: LastDelQualifier(env, p, d, c)
  }

  ghost predicate TsSeen(p: set<Cell>, c: Cell) {
    exists e :: e in p && SameCell(e, c) && e.ts == c.ts
  }

  /** A row or column mark of the put's own column and timestamp, with no
      delete-one-version mark between, hides the put from the version count. */
  ghost predicate Uncounted(p: set<Cell>, c: Cell) {
    && (exists e :: e in p && SameCell(e, c) && e.ts == c.ts && (e.kind.Del? || e.kind.DelColumn?))
    && !(exists d :: d in p && SameCell(d, c) && d.ts == c.ts && d.kind.DelQualifier?)
  }

  ghost function CountedPuts(env: Env, p: set<Cell>, c: Cell): set<Cell> {
    set v | v in p && v.kind.Value? && Live(env, v) && SameCell(v, c) && !Uncounted(p, v)
  }

  /** The cells before `c`. */
  ghost function Upto(h: set<Cell>, c: Cell): set<Cell> {
    set e | e in h && Before(e, c)
  }

  /** A put of the column of `c` that no delete-one-version mark swallows. */
  ghost predicate PutShown(env: Env, p: set<Cell>, c: Cell) {
    exists v :: ShowsPut(env, p, v, c)
  }

  ghost predicate ShowsPut(env: Env, p: set<Cell>, v: Cell, c: Cell) {
    v in p && v.kind.Value? && Live(env, v) && SameCell(v, c) && !NextIsDeleted(env, Upto(p, v), v)
  }

  /** The verdict on a put `c` after the cells of `p`, exactly as the automaton reaches it. */
  ghost predicate Kept(env: Env, p: set<Cell>, c: Cell) {
    && c.kind.Value? && Live(env, c)
    && !Killed(env, p, NoLimit, c)
    && !QualCovered(env, p, c)
    && !NextIsDeleted(env, p, c)
    && |CountedPuts(env, p + {c}, c)| <= env.schema[c.cf].maxVersions
  }

  /** The verdict on an atomic operation: it counts until a put of its column is shown. */
  ghost predicate KeptAtomic(env: Env, p: set<Cell>, c: Cell) {
    && c.kind.IsAtomic() && Live(env, c)
    && !Killed(env, p, NoLimit, c)
    && !QualCovered(env, p, c)
    && !NextIsDeleted(env, p, c)
    && !PutShown(env, p, c)
  }

  // ---------- what the automaton knows ----------

  ghost predicate CellFacts(env: Env, p: set<Cell>, st: State, c: Cell) {
    && (QualCovered(env, p, c) <==> st.delQualTs >= c.ts)
    && (st.curTs == c.ts <==> TsSeen(p, c))
    && (!QualCovered(env, p, c) ==> (NextIsDeleted(env, p, c) <==> st.lastType.DelQualifier?))
    && (!QualCovered(env, p, c) ==> |CountedPuts(env, p, c)| == st.versionNum)
    && (!QualCovered(env, p, c) ==> (PutShown(env, p, c) <==> st.hasPut))
  }

  /** `c` is a later cell that the deletions of `p` do not reach, in the column where
      the automaton stands. */
  ghost predicate Continues(env: Env, p: set<Cell>, st: State, c: Cell) {
    && WellFormed(c) && After(p, c) && Live(env, c)
    && !Killed(env, p, NoLimit, c) && AtCell(FrontOf(st), c)
  }

  ghost predicate ScanInv(env: Env, p: set<Cell>, st: State) {
    && TracksAll(env, p, NoLimit, FrontOf(st))
    && forall c :: Continues(env, p, st, c) ==> CellFacts(env, p, st, c)
  }

  lemma FreshInv(env: Env)
    ensures ScanInv(env, {}, Fresh)
  {
    StartTracks(env, NoLimit);
    assert FrontOf(Fresh) == Start;
  }

  lemma ScanFront(env: Env, st: State, x: Cell)
    ensures FrontOf(ScanStep(env, st, x).0) == Feed(env, FrontOf(st), x, NoLimit)
  {
  }

  /** Marks and puts of one column, as they look from a later cell. */
  lemma CoverExtend(env: Env, p: set<Cell>, x: Cell, c: Cell)
    requires SameCell(x, c)
    ensures QualCovered(env, p + {x}, c) <==>
            QualCovered(env, p, c) || (Live(env, x) && x.kind.DelQualifiers? && x.ts >= c.ts)
  {
    var p' := p + {x};
    if QualCovered(env, p, c) {
      var m :| m in p && Live(env, m) && m.kind.DelQualifiers? && SameCell(m, c) && m.ts >= c.ts;
      assert m in p';
    }
    if Live(env, x) && x.kind.DelQualifiers? && x.ts >= c.ts { assert x in p'; }
  }

  lemma TsExtend(p: set<Cell>, x: Cell, c: Cell)
    requires After(p, x) && Before(x, c) && SameCell(x, c)
    ensures TsSeen(p + {x}, c) <==> x.ts == c.ts
  {
    var p' := p + {x};
    if TsSeen(p', c) {
      var e :| e in p' && SameCell(e, c) && e.ts == c.ts;
      NewestFirst(x, c);
      if e != x { NewestFirst(e, x); }
    }
    if x.ts == c.ts { assert x in p'; }
  }

  lemma LastLive(env: Env, p: set<Cell>, x: Cell, c: Cell)
    requires After(p, x) && SameCell(x, c) && Live(env, x)
    ensures NextIsDeleted(env, p + {x}, c) <==> x.kind.DelQualifier?
  {
    var p' := p + {x};
    if x.kind.DelQualifier? { assert LastDelQualifier(env, p', x, c); }
    if NextIsDeleted(env, p', c) {
      var d :| LastDelQualifier(env, p', d, c);
      if d != x { BeforeAsym(d, x); }
    }
  }

  lemma LastDead(env: Env, p: set<Cell>, x: Cell, c: Cell)
    requires !Live(env, x)
    ensures NextIsDeleted(env, p + {x}, c) <==> NextIsDeleted(env, p, c)
  {
    var p' := p + {x};
    if NextIsDeleted(env, p', c) {
      var d :| LastDelQualifier(env, p', d, c);
      assert LastDelQualifier(env, p, d, c);
    }
    if NextIsDeleted(env, p, c) {
      var d :| LastDelQualifier(env, p, d, c);
      assert LastDelQualifier(env, p', d, c);
    }
  }

  lemma UncountedStable(p: set<Cell>, x: Cell, v: Cell)
    requires Before(v, x) && v.kind.Value?
    ensures Uncounted(p + {x}, v) <==> Uncounted(p, v)
  {
    BeforeAsym(v, x);
    assert !(SameCell(x, v) && x.ts == v.ts && (x.kind.Del? || x.kind.DelColumn? || x.kind.DelQualifier?)) by {
      LexAsym(x.row, x.row);
      LexAsym(x.cf, x.cf);
      LexAsym(x.qual, x.qual);
    }
    if exists e :: e in p && SameCell(e, v) && e.ts == v.ts && (e.kind.Del? || e.kind.DelColumn?) {
      var e :| e in p && SameCell(e, v) && e.ts == v.ts && (e.kind.Del? || e.kind.DelColumn?);
      assert e in p + {x};
    }
    if exists d :: d in p && SameCell(d, v) && d.ts == v.ts && d.kind.DelQualifier? {
      var d :| d in p && SameCell(d, v) && d.ts == v.ts && d.kind.DelQualifier?;
      assert d in p + {x};
    }
  }

  lemma CountExtend(env: Env, p: set<Cell>, x: Cell, c: Cell)
    requires After(p, x) && SameCell(x, c) && x !in p
    ensures |CountedPuts(env, p + {x}, c)| ==
            |CountedPuts(env, p, c)| + if x.kind.Value? && Live(env, x) && !Uncounted(p + {x}, x) then 1 else 0
  {
    var p' := p + {x};
    forall v | v in p && v.kind.Value? ensures Uncounted(p', v) <==> Uncounted(p, v) {
      UncountedStable(p, x, v);
    }
    if x.kind.Value? && Live(env, x) && !Uncounted(p', x) {
      assert CountedPuts(env, p', c) == CountedPuts(env, p, c) + {x};
    } else {
      assert CountedPuts(env, p', c) == CountedPuts(env, p, c);
    }
  }

  lemma ShownExtend(env: Env, p: set<Cell>, x: Cell, c: Cell)
    requires After(p, x) && SameCell(x, c)
    ensures PutShown(env, p + {x}, c) <==>
              PutShown(env, p, c) || (x.kind.Value? && Live(env, x) && !NextIsDeleted(env, p, x))
  {
    var p' := p + {x};
    forall v | v in p ensures Upto(p', v) == Upto(p, v) { BeforeAsym(v, x); }
    assert Upto(p', x) == p by { BeforeAsym(x, x); }
    if PutShown(env, p, c) {
      var v :| ShowsPut(env, p, v, c);
      assert ShowsPut(env, p', v, c);
    }
    if x.kind.Value? && Live(env, x) && !NextIsDeleted(env, p, x) { assert ShowsPut(env, p', x, c); }
    if PutShown(env, p', c) {
      var v :| ShowsPut(env, p', v, c);
      assert v == x || ShowsPut(env, p, v, c);
    }
  }

  lemma CountSame(env: Env, p: set<Cell>, x: Cell, c: Cell)
    requires SameCell(x, c)
    ensures CountedPuts(env, p, x) == CountedPuts(env, p, c)
  {
  }

  /** After a cell of the same column at the same timestamp only a put, or a mark that
      was already accounted for, can follow. */
  lemma UncountedExactly(env: Env, p: set<Cell>, x: Cell)
    requires AllWellFormed(p) && Distinct(p) && After(p, x) && x.kind.Value? && Live(env, x) && x !in p
    requires !QualCovered(env, p, x) && !NextIsDeleted(env, p, x)
    ensures Uncounted(p + {x}, x) <==> TsSeen(p, x)
  {
    var p' := p + {x};
    if TsSeen(p, x) {
      var e :| e in p && SameCell(e, x) && e.ts == x.ts;
      NoneBetween(env, p, x);
      SmallerCode(e, x);
      assert e in p';
      assert e.kind.Del? || e.kind.DelColumn?;
    }
  }

  lemma SmallerCode(e: Cell, x: Cell)
    requires Before(e, x) && SameCell(e, x) && e.ts == x.ts
    ensures e.kind.Code() < x.kind.Code()
  {
    LexAsym(x.row, x.row);
    LexAsym(x.cf, x.cf);
    LexAsym(x.qual, x.qual);
  }

  lemma SameTsIsLast(env: Env, p: set<Cell>, d: Cell, x: Cell)
    requires Distinct(p) && After(p, x) && x.kind.Value? && Live(env, x)
    requires d in p && SameCell(d, x) && d.ts == x.ts && d.kind.DelQualifier?
    ensures LastDelQualifier(env, p, d, x)
  {
    forall e | e in p && Live(env, e) && SameCell(e, x) ensures e == d || Before(e, d) {
      if e != d && Before(d, e) {
        NewestFirst(d, e);
        NewestFirst(e, x);
        SmallerCode(d, e);
        SmallerCode(e, x);
      }
    }
  }

  lemma NoneBetween(env: Env, p: set<Cell>, x: Cell)
    requires Distinct(p) && After(p, x) && x.kind.Value? && Live(env, x)
    requires !NextIsDeleted(env, p, x)
    ensures forall d :: d in p && SameCell(d, x) && d.ts == x.ts ==> !d.kind.DelQualifier?
  {
    forall d | d in p && SameCell(d, x) && d.ts == x.ts ensures !d.kind.DelQualifier? {
      if d.kind.DelQualifier? { SameTsIsLast(env, p, d, x); }
    }
  }

  // ---------- one call of ScanDrop ----------

  /** The cells fed so far: well formed and strictly ordered. */
  ghost predicate Stream(p: set<Cell>) {
    AllWellFormed(p) && Distinct(p)
  }

  /** Such cells without atomic operations. */
  ghost predicate History(p: set<Cell>) {
    Stream(p) && NoAtomics(p)
  }

  lemma StreamExtend(p: set<Cell>, x: Cell)
    requires Stream(p) && WellFormed(x) && After(p, x)
    ensures Stream(p + {x}) && x !in p
  {
    BeforeAsym(x, x);
  }

  /** The state right after a live, undeleted cell that opens a column. */
  ghost predicate OpenedBy(st: State, x: Cell) {
    && st.curTs == x.ts && st.lastType == x.kind
    && st.versionNum == (if x.kind.Value? then 1 else 0) && (st.hasPut <==> x.kind.Value?)
    && (x.kind.DelQualifiers? ==> st.delQualTs == x.ts)
    && (!x.kind.DelQualifiers? ==> st.delQualTs == -1 || st.delRowTs == x.ts || st.delColTs == x.ts)
  }

  lemma OpenState(env: Env, st: State, x: Cell)
    requires Live(env, x) && !AtCell(FrontOf(st), x)
    requires !(AtRow(FrontOf(st), x) && st.delRowTs >= x.ts)
    requires !(AtCol(FrontOf(st), x) && st.delColTs >= x.ts)
    ensures OpenedBy(ScanStep(env, st, x).0, x)
  {
  }

  /** `x` opens a column that no live cell of `p` belongs to. */
  lemma FactsOpen(env: Env, p: set<Cell>, st: State, x: Cell, c: Cell)
    requires Stream(p) && WellFormed(x) && After(p, x) && Before(x, c) && SameCell(x, c)
    requires Live(env, x) && !SeenCell(env, p, x)
    requires OpenedBy(st, x) && Tracks(env, p + {x}, NoLimit, FrontOf(st), c)
    requires Continues(env, p + {x}, st, c)
    ensures CellFacts(env, p + {x}, st, c)
  {
    BeforeAsym(x, x);
    NewestFirst(x, c);
    assert forall e :: e in p && Live(env, e) ==> !SameCell(e, c);
    CoverExtend(env, p, x, c);
    TsExtend(p, x, c);
    LastLive(env, p, x, c);
    CountExtend(env, p, x, c);
    ShownExtend(env, p, x, c);
    assert CountedPuts(env, p, c) == {};
    assert x.kind.Value? ==> !Uncounted(p + {x}, x);
  }

  /** `x` continues the column the automaton stands in. */
  lemma FactsContinue(env: Env, p: set<Cell>, st: State, x: Cell, c: Cell)
    requires Stream(p) && WellFormed(x) && After(p, x) && Before(x, c) && SameCell(x, c)
    requires TracksAll(env, p, NoLimit, FrontOf(st))
    requires Live(env, x) && Continues(env, p, st, x) && CellFacts(env, p, st, x)
    requires Continues(env, p, st, c) && CellFacts(env, p, st, c)
    ensures CellFacts(env, p + {x}, ScanStep(env, st, x).0, c)
  {
    var st' := ScanStep(env, st, x).0;
    StreamExtend(p, x);
    NewestFirst(x, c);
    assert Tracks(env, p, NoLimit, FrontOf(st), x);
    CoverExtend(env, p, x, c);
    TsExtend(p, x, c);
    LastLive(env, p, x, c);
    CountExtend(env, p, x, c);
    ShownExtend(env, p, x, c);
    CountSame(env, p, x, c);
    if !QualCovered(env, p, x) && x.kind.Value? {
      if NextIsDeleted(env, p, x) {
        CountedAfterDelQualifier(env, p, x);
      } else {
        UncountedExactly(env, p, x);
      }
    }
  }

  lemma CountedAfterDelQualifier(env: Env, p: set<Cell>, x: Cell)
    requires AllWellFormed(p) && After(p, x) && x.kind.Value? && Live(env, x)
    requires NextIsDeleted(env, p, x)
    ensures !Uncounted(p + {x}, x)
  {
    var p' := p + {x};
    if exists e :: e in p' && SameCell(e, x) && e.ts == x.ts && (e.kind.Del? || e.kind.DelColumn?) {
      var e :| e in p' && SameCell(e, x) && e.ts == x.ts && (e.kind.Del? || e.kind.DelColumn?);
      var d :| LastDelQualifier(env, p, d, x);
      NewestFirst(e, d);
      NewestFirst(d, x);
      assert d in p' && d.ts == x.ts;
    }
  }

  /** `x` is an undeclared or expired cell of the column. */
  lemma FactsDead(env: Env, p: set<Cell>, st: State, x: Cell, c: Cell)
    requires Stream(p) && WellFormed(x) && After(p, x) && Before(x, c) && SameCell(x, c)
    requires !Live(env, x)
    requires Continues(env, p, st, c) && CellFacts(env, p, st, c)
    ensures CellFacts(env, p + {x}, ScanStep(env, st, x).0, c)
  {
    StreamExtend(p, x);
    CoverExtend(env, p, x, c);
    TsExtend(p, x, c);
    LastDead(env, p, x, c);
    CountExtend(env, p, x, c);
    ShownExtend(env, p, x, c);
  }

  lemma ScanStepInv(env: Env, p: set<Cell>, st: State, x: Cell)
    requires Stream(p) && WellFormed(x) && After(p, x)
    requires ScanInv(env, p, st)
    ensures ScanInv(env, p + {x}, ScanStep(env, st, x).0)
  {
    var st' := ScanStep(env, st, x).0;
    var p' := p + {x};
    FeedTracks(env, p, NoLimit, FrontOf(st), x);
    ScanFront(env, st, x);
    forall c | Continues(env, p', st', c) ensures CellFacts(env, p', st', c) {
      assert Tracks(env, p', NoLimit, FrontOf(st'), c);
      assert After(p, c) && Before(x, c);
      KilledExtend(env, p, NoLimit, x, c);
      assert SeenCell(env, p', c);
      if !SameCell(x, c) {
        NothingOtherCell(p, x, c);
        assert false;
      }
      StreamExtend(p, x);
      NewestFirst(x, c);
      BeforeAsym(c, c);
      KilledDown(env, p, NoLimit, x, c);
      assert Tracks(env, p, NoLimit, FrontOf(st), x);
      if !Live(env, x) {
        assert Continues(env, p, st, c);
        FactsDead(env, p, st, x, c);
      } else if AtCell(FrontOf(st), x) {
        assert Continues(env, p, st, x) && Continues(env, p, st, c);
        FactsContinue(env, p, st, x, c);
      } else {
        OpenState(env, st, x);
        FactsOpen(env, p, st', x, c);
      }
    }
  }

  lemma VerdictContinues(env: Env, p: set<Cell>, st: State, x: Cell)
    requires Stream(p) && WellFormed(x) && After(p, x) && x !in p
    requires ScanInv(env, p, st) && Live(env, x) && !Killed(env, p, NoLimit, x) && AtCell(FrontOf(st), x)
    ensures ScanStep(env, st, x).1 <==> !Kept(env, p, x) && !KeptAtomic(env, p, x)
  {
    assert Tracks(env, p, NoLimit, FrontOf(st), x);
    CountExtend(env, p, x, x);
    assert Continues(env, p, st, x);
    if x.kind.Value? && !QualCovered(env, p, x) && !NextIsDeleted(env, p, x) {
      UncountedExactly(env, p, x);
    }
  }

  lemma VerdictOpens(env: Env, p: set<Cell>, st: State, x: Cell)
    requires Stream(p) && WellFormed(x) && After(p, x) && x !in p
    requires ScanInv(env, p, st) && Live(env, x) && !Killed(env, p, NoLimit, x) && !AtCell(FrontOf(st), x)
    ensures ScanStep(env, st, x).1 <==> !Kept(env, p, x) && !KeptAtomic(env, p, x)
  {
    assert Tracks(env, p, NoLimit, FrontOf(st), x);
    CountExtend(env, p, x, x);
    assert CountedPuts(env, p, x) == {};
    assert x.kind.Value? ==> !Uncounted(p + {x}, x);
    assert !QualCovered(env, p, x) && !NextIsDeleted(env, p, x) && !PutShown(env, p, x);
  }

  /** The verdict of ScanDrop is the verdict of the cells seen so far. */
  lemma ScanStepVerdict(env: Env, p: set<Cell>, st: State, x: Cell)
    requires Stream(p) && WellFormed(x) && After(p, x)
    requires ScanInv(env, p, st)
    ensures ScanStep(env, st, x).1 <==> !Kept(env, p, x) && !KeptAtomic(env, p, x)
  {
    StreamExtend(p, x);
    if Live(env, x) {
      assert Tracks(env, p, NoLimit, FrontOf(st), x);
      if !Killed(env, p, NoLimit, x) {
        if AtCell(FrontOf(st), x) {
          VerdictContinues(env, p, st, x);
        } else {
          VerdictOpens(env, p, st, x);
        }
      }
    }
  }
}

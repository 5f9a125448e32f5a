/** Reading only part of a history: feeding ScanDrop the leading marks of a row and of a
    family and the cells of one column is as good as feeding it everything, as long as those
    marks come first. */
module PartialRead {
  import opened Bytes
  import opened Cells
  import opened Frontier
  import opened Strategy
  import opened Visibility
  import opened ReadSemantics

  /** `p`, fed before `x`, holds the first row mark of the row, the first column mark of
      the family and all of the column above `x`. */
  ghost predicate Suffices(h: set<Cell>, p: set<Cell>, x: Cell) {
    && p <= h && After(p, x)
    && (forall m :: m in h && m.kind.Del? && SameRow(m, x) && Opens(h, m) ==> m in p)
    && (forall m :: m in h && m.kind.DelColumn? && SameCol(m, x) && OpensCol(h, m) ==> m in p)
    && (forall e :: e in h && SameCell(e, x) && Before(e, x) ==> e in p)
  }

  /** No cell of the row comes before `m`. */
  ghost predicate Opens(h: set<Cell>, m: Cell) {
    forall e :: e in h && SameRow(e, m) ==> !Before(e, m)
  }

  /** No cell of the family comes before `m`. */
  ghost predicate OpensCol(h: set<Cell>, m: Cell) {
    forall e :: e in h && SameCol(e, m) ==> !Before(e, m)
  }

  lemma RowMarkFed(env: Env, h: set<Cell>, p: set<Cell>, x: Cell)
    requires AllWellFormed(h) && Distinct(h) && MarksFirst(h) && Suffices(h, p, x) && x.kind.Value?
    requires RowDeleted(h, x)
    ensures RowKilled(env, p, NoLimit, x)
  {
    var m :| m in h && m.kind.Del? && SameRow(m, x) && m.ts >= x.ts;
    var row := set e | e in h && SameRow(e, x);
    assert m in row;
    var m0 := FirstOf(row);
    assert m0.kind.Del? && m0.ts >= m.ts by {
      if m0 != m { NewestFirst(m0, m); }
    }
    assert Opens(h, m0) by {
      forall e | e in h && SameRow(e, m0) ensures !Before(e, m0) {
        assert e in row;
        BeforeAsym(e, m0);
      }
    }
    assert RowKills(env, p, NoLimit, m0, x);
  }

  lemma ColMarkFed(env: Env, h: set<Cell>, p: set<Cell>, x: Cell)
    requires AllWellFormed(h) && Distinct(h) && MarksFirst(h) && Suffices(h, p, x) && x.kind.Value? && Live(env, x)
    requires ColDeleted(h, x) && !RowDeleted(h, x)
    ensures ColKilled(env, p, NoLimit, x)
  {
    var m :| m in h && m.kind.DelColumn? && SameCol(m, x) && m.ts >= x.ts;
    var col := set e | e in h && SameCol(e, x);
    assert m in col;
    var m0 := FirstOf(col);
    assert (m0.kind.DelColumn? || m0.kind.Del?) && m0.ts >= m.ts by {
      if m0 != m { EmptyQualLeads(m0, m); NewestFirst(m0, m); }
    }
    assert OpensCol(h, m0) by {
      forall e | e in h && SameCol(e, m0) ensures !Before(e, m0) {
        assert e in col;
        BeforeAsym(e, m0);
      }
    }
    assert ColKills(env, p, NoLimit, m0, x);
  }

  lemma PartKilled(env: Env, h: set<Cell>, p: set<Cell>, x: Cell)
    requires AllWellFormed(h) && Distinct(h) && MarksFirst(h) && Suffices(h, p, x) && x.kind.Value? && Live(env, x)
    ensures Killed(env, p, NoLimit, x) <==> RowDeleted(h, x) || ColDeleted(h, x)
  {
    if RowDeleted(h, x) {
      RowMarkFed(env, h, p, x);
    } else if ColDeleted(h, x) {
      ColMarkFed(env, h, p, x);
    }
    if RowKilled(env, p, NoLimit, x) {
      var m :| RowKills(env, p, NoLimit, m, x);
      assert m in h;
    }
    if ColKilled(env, p, NoLimit, x) {
      var m :| ColKills(env, p, NoLimit, m, x);
      assert m in h;
    }
  }

  /** Inside the column, sets that agree on it look the same. */
  lemma SameColumnFacts(env: Env, p: set<Cell>, q: set<Cell>, c: Cell)
    requires forall e :: SameCell(e, c) ==> (e in p <==> e in q)
    ensures QualCovered(env, p, c) <==> QualCovered(env, q, c)
    ensures NextIsDeleted(env, p, c) <==> NextIsDeleted(env, q, c)
    ensures CountedPuts(env, p + {c}, c) == CountedPuts(env, q + {c}, c)
  {
    if NextIsDeleted(env, p, c) {
      var d :| LastDelQualifier(env, p, d, c);
      assert LastDelQualifier(env, q, d, c);
    }
    if NextIsDeleted(env, q, c) {
      var d :| LastDelQualifier(env, q, d, c);
      assert LastDelQualifier(env, p, d, c);
    }
    forall v | SameCell(v, c) ensures Uncounted(p + {c}, v) <==> Uncounted(q + {c}, v) {
      assert forall e :: SameCell(e, v) ==> (e in p + {c} <==> e in q + {c});
    }
  }

  /** Such a part decides about `x` as the whole history does. */
  lemma PartDecides(env: Env, h: set<Cell>, p: set<Cell>, x: Cell)
    requires AllWellFormed(h) && Distinct(h) && MarksFirst(h) && x in h && Suffices(h, p, x)
    ensures Kept(env, p, x) <==> Visible(env, h, x)
  {
    if x.kind.Value? && Live(env, x) {
      PartKilled(env, h, p, x);
      SameColumnFacts(env, p, Upto(h, x), x);
      QualCoveredIsDeleted(env, h, x);
      OneDeletedSame(env, h, x);
      if !RowDeleted(h, x) && !ColDeleted(h, x) { CountedIsVersions(env, h, x); }
    }
  }

  // ---------- the part a read by seeking looks at ----------

  /** The first cell of the row of `c`, the first of its family, and its column above it. */
  ghost function Part(h: set<Cell>, c: Cell): set<Cell> {
    set e | e in h && Before(e, c) &&
            ((SameRow(e, c) && Opens(h, e)) || (SameCol(e, c) && OpensCol(h, e)) || SameCell(e, c))
  }

  /** A column ends for such a read at the first cell that ScanDrop skips. */
  ghost predicate Reached(env: Env, h: set<Cell>, c: Cell) {
    && c in h
    && forall e :: e in h && SameCell(e, c) && (e == c || Before(e, c)) ==> Kept(env, Part(h, e), e)
  }

  /** Such a read comes upon `e`: it opens its row or its family, or all of its column above
      it was kept. */
  ghost predicate ComesUpon(env: Env, h: set<Cell>, e: Cell) {
    || Opens(h, e) || OpensCol(h, e)
    || forall d :: d in h && SameCell(d, e) && Before(d, e) ==> Kept(env, Part(h, d), d)
  }

  /** What such a read may have fed before `c`. */
  ghost predicate Sought(env: Env, h: set<Cell>, p: set<Cell>, c: Cell) {
    && p <= h && Part(h, c) <= p && After(p, c)
    && forall e :: e in p && SameRow(e, c) ==> ComesUpon(env, h, e)
  }

  lemma EmptyNamesLead(e: Cell, m: Cell)
    requires WellFormed(m) && Before(e, m)
    requires (m.kind.Del? && SameRow(e, m)) || (m.kind.DelColumn? && SameCol(e, m))
    ensures SameCell(e, m)
  {
    LexAsym(m.row, m.row);
    LexAsym(m.cf, m.cf);
  }

  /** Of the row marks fed, only one that opens the row can lead it: anything before
      another was kept, so it is live. */
  lemma RowMarkOpens(env: Env, h: set<Cell>, p: set<Cell>, c: Cell, m: Cell)
    requires AllWellFormed(h) && Distinct(h) && c in h && Sought(env, h, p, c)
    requires LeadRow(env, p, m) && SameRow(m, c)
    ensures m in Part(h, c) && Opens(h, m)
  {
    var row := set e | e in h && SameRow(e, c);
    assert m in row;
    var first := FirstOf(row);
    assert Opens(h, first) by {
      forall e | e in h && SameRow(e, first) ensures !Before(e, first) {
        assert e in row;
        BeforeAsym(e, first);
      }
    }
    assert ComesUpon(env, h, m);
    if m != first {
      EmptyNamesLead(first, m);
      BeforeTrans(first, m, c);
    }
  }

  lemma ColMarkOpens(env: Env, h: set<Cell>, p: set<Cell>, c: Cell, m: Cell)
    requires AllWellFormed(h) && Distinct(h) && c in h && Sought(env, h, p, c)
    requires LeadCol(env, p, m) && SameCol(m, c)
    ensures m in Part(h, c) && OpensCol(h, m)
  {
    var col := set e | e in h && SameCol(e, c);
    assert m in col;
    var first := FirstOf(col);
    assert OpensCol(h, first) by {
      forall e | e in h && SameCol(e, first) ensures !Before(e, first) {
        assert e in col;
        BeforeAsym(e, first);
      }
    }
    assert ComesUpon(env, h, m);
    if m != first {
      EmptyNamesLead(first, m);
      BeforeTrans(first, m, c);
    }
  }

  /** In the part, nothing live before a leading mark means nothing live before it in what
      was fed. */
  lemma PartLeads(env: Env, h: set<Cell>, p: set<Cell>, c: Cell, m: Cell)
    requires AllWellFormed(h) && Sought(env, h, p, c)
    ensures LeadRow(env, Part(h, c), m) && SameRow(m, c) ==> LeadRow(env, p, m)
    ensures LeadCol(env, Part(h, c), m) && SameCol(m, c) ==> LeadCol(env, p, m)
  {
    if m in Part(h, c) {
      forall e | e in p && Before(e, m) && ((m.kind.Del? && SameRow(e, m)) || (m.kind.DelColumn? && SameCol(e, m)))
        ensures e in Part(h, c)
      {
        EmptyNamesLead(e, m);
        BeforeTrans(e, m, c);
      }
    }
  }

  lemma KilledAsPart(env: Env, h: set<Cell>, p: set<Cell>, c: Cell)
    requires AllWellFormed(h) && Distinct(h) && c in h && Sought(env, h, p, c)
    ensures Killed(env, p, NoLimit, c) <==> Killed(env, Part(h, c), NoLimit, c)
  {
    var q := Part(h, c);
    if RowKilled(env, p, NoLimit, c) {
      var m :| RowKills(env, p, NoLimit, m, c);
      RowMarkOpens(env, h, p, c, m);
      assert RowKills(env, q, NoLimit, m, c);
    }
    if ColKilled(env, p, NoLimit, c) {
      var m :| ColKills(env, p, NoLimit, m, c);
      ColMarkOpens(env, h, p, c, m);
      assert ColKills(env, q, NoLimit, m, c);
    }
    if RowKilled(env, q, NoLimit, c) {
      var m :| RowKills(env, q, NoLimit, m, c);
      PartLeads(env, h, p, c, m);
      assert RowKills(env, p, NoLimit, m, c);
    }
    if ColKilled(env, q, NoLimit, c) {
      var m :| ColKills(env, q, NoLimit, m, c);
      PartLeads(env, h, p, c, m);
      assert ColKills(env, p, NoLimit, m, c);
    }
  }

  /** What was fed decides as its part does. */
  lemma KeptAsPart(env: Env, h: set<Cell>, p: set<Cell>, c: Cell)
    requires AllWellFormed(h) && Distinct(h) && c in h && Sought(env, h, p, c)
    ensures Kept(env, p, c) <==> Kept(env, Part(h, c), c)
  {
    KilledAsPart(env, h, p, c);
    SameColumnFacts(env, p, Part(h, c), c);
  }

  /** No delete-one-version mark of its column comes before `c`. */
  ghost predicate Unmarked(h: set<Cell>, c: Cell) {
    forall d :: d in h && d.kind.DelQualifier? && SameCell(d, c) ==> !Before(d, c)
  }

  /** Everything above a visible cell of its column is visible, apart from delete-one-version
      marks and what they delete. */
  lemma VisibleAbove(env: Env, h: set<Cell>, e: Cell, c: Cell)
    requires AllWellFormed(h) && NoAtomics(h) && e in h && c in h && SameCell(e, c) && Before(e, c)
    requires Unmarked(h, c) && Visible(env, h, c)
    ensures Visible(env, h, e) && Unmarked(h, e)
  {
    NewestFirst(e, c);
    LiveAbove(env, e, c);
    forall d | d in h && d.kind.DelQualifier? && SameCell(d, e) ensures !Before(d, e) {
      if Before(d, e) { BeforeTrans(d, e, c); }
    }
    assert !e.kind.Del? && !e.kind.DelColumn? && !e.kind.DelQualifiers?;
    forall v | v in Versions(h, e) ensures v in Versions(h, c) {
      if v != e { BeforeTrans(v, e, c); }
    }
    assert Versions(h, c) == Versions(h, e) + (Versions(h, c) - Versions(h, e));
  }

  /** Where row and family marks come first, the read reaches exactly the visible cells with
      no delete-one-version mark of their column before them. */
  lemma ReachedIff(env: Env, h: set<Cell>, c: Cell)
    requires History(h) && MarksFirst(h) && c in h
    ensures Reached(env, h, c) <==> Visible(env, h, c) && Unmarked(h, c)
  {
    if Reached(env, h, c) {
      KeptPartVisible(env, h, c);
    }
    if Visible(env, h, c) && Unmarked(h, c) {
      forall e | e in h && SameCell(e, c) && (e == c || Before(e, c)) ensures Kept(env, Part(h, e), e) {
        if e != c { VisibleAbove(env, h, e, c); }
        KeptPartVisible(env, h, e);
      }
    }
  }

  lemma KeptPartVisible(env: Env, h: set<Cell>, c: Cell)
    requires History(h) && MarksFirst(h) && c in h
    ensures Kept(env, Part(h, c), c) <==> Visible(env, h, c)
  {
    if c.kind.Value? {
      assert Suffices(h, Part(h, c), c) by {
        forall m | m in h && m.kind.Del? && SameRow(m, c) && Opens(h, m) ensures m in Part(h, c) {
          assert !Before(c, m);
        }
        forall m | m in h && m.kind.DelColumn? && SameCol(m, c) && OpensCol(h, m) ensures m in Part(h, c) {
          assert !Before(c, m);
        }
      }
      PartDecides(env, h, Part(h, c), c);
    }
  }

  // ---------- feeding a cell twice ----------

  /** `x` is the put that the delete-one-version mark just read is about to delete. */
  ghost predicate DueToGo(env: Env, st: State, x: Cell) {
    && x.kind.Value? && Live(env, x) && st.lastType.DelQualifier? && AtCell(FrontOf(st), x)
    && st.delRowTs < x.ts && st.delColTs < x.ts && st.delQualTs < x.ts
  }

  /** Right after a cell, feeding it again changes nothing but the remembered time, and
      gives the same verdict; only a put that a delete-one-version mark deletes would
      come back. */
  lemma FedAgain(env: Env, st: State, x: Cell)
    requires !x.kind.IsAtomic() && !DueToGo(env, st, x)
    ensures var (s, dropped) := ScanStep(env, st, x);
            ScanStep(env, s, x) == (s.(lastTs := x.ts), dropped)
  {
  }

  /** No put is due to go while no delete-one-version mark of its column has been read. */
  lemma NothingDue(env: Env, p: set<Cell>, st: State, x: Cell)
    requires ScanInv(env, p, st) && WellFormed(x) && After(p, x)
    requires forall d :: d in p && SameCell(d, x) ==> !d.kind.DelQualifier?
    ensures !DueToGo(env, st, x)
  {
    assert !NextIsDeleted(env, p, x);
    assert Tracks(env, p, NoLimit, FrontOf(st), x);
    assert Continues(env, p, st, x) ==> CellFacts(env, p, st, x);
  }

  lemma OldTimeIgnored(env: Env, st: State, x: Cell, t: int)
    ensures ScanStep(env, st.(lastTs := t), x) == ScanStep(env, st, x)
  {
  }

  lemma InvIgnoresTime(env: Env, p: set<Cell>, st: State, t: int)
    requires ScanInv(env, p, st)
    ensures ScanInv(env, p, st.(lastTs := t))
  {
    var st' := st.(lastTs := t);
    assert FrontOf(st') == FrontOf(st);
    forall c | Continues(env, p, st', c) ensures CellFacts(env, p, st', c) {
      assert Continues(env, p, st, c);
      assert CellFacts(env, p, st, c);
    }
  }
}

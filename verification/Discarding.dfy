/** What a compaction discards: the meaning of `Drop` in terms of the cells it was fed. */
module Discarding {
  import opened Bytes
  import opened Cells
  import opened Frontier
  import opened Strategy
  import opened Visibility
  import opened ReadSemantics

  /** The stamps in force for a compaction: a mark above the snapshot deletes nothing. */
  function DropFrontOf(snapshot: nat, st: State): Front {
    Front(st.lastKey, st.lastCol, st.lastQual,
          if st.delRowSeq <= snapshot then st.delRowTs else -1,
          if st.delColSeq <= snapshot then st.delColTs else -1)
  }

  /** `m` is a delete-all-versions mark and no live cell of its column precedes it. */
  ghost predicate LeadQual(env: Env, p: set<Cell>, m: Cell) {
    && m in p && m.kind.DelQualifiers? && Live(env, m)
    && forall e :: e in p && SameCell(e, m) && Before(e, m) ==> !Live(env, e)
  }

  ghost predicate QualKills(env: Env, snapshot: nat, p: set<Cell>, m: Cell, c: Cell) {
    LeadQual(env, p, m) && m.seqno <= snapshot && m != c && SameCell(m, c) && m.ts >= c.ts
  }

  ghost predicate QualKilled(env: Env, snapshot: nat, p: set<Cell>, c: Cell) {
    exists m :: QualKills(env, snapshot, p, m, c)
  }

  /** The live puts of the column that every reader of this compaction can see. */
  ghost function SnapPuts(env: Env, snapshot: nat, p: set<Cell>, c: Cell): set<Cell> {
    set v | v in p && v.kind.Value? && Live(env, v) && SameCell(v, c) && v.seqno <= snapshot
  }

  ghost predicate Leads(env: Env, p: set<Cell>, c: Cell) {
    LeadRow(env, p, c) || LeadCol(env, p, c) || LeadQual(env, p, c)
  }

  ghost predicate OverVersions(env: Env, snapshot: nat, p: set<Cell>, c: Cell)
    requires Live(env, c)
  {
    && c.seqno <= snapshot
    && ((c.kind.Value? && |SnapPuts(env, snapshot, p + {c}, c)| > env.schema[c.cf].maxVersions) ||
        (c.kind.DelQualifier? && |SnapPuts(env, snapshot, p, c)| >= env.schema[c.cf].maxVersions))
  }

  /** A live put of the column of `c`.  Where no mark reaches `c`, none reaches the puts before
      it, as they are no older. */
  ghost predicate PutFed(env: Env, p: set<Cell>, c: Cell) {
    exists v :: v in p && v.kind.Value? && Live(env, v) && SameCell(v, c)
  }

  /** The verdict on `c` after the cells of `p`: undeclared or expired, deleted by a mark
      no newer than the snapshot, a leading mark nobody below the bound needs, beyond the
      versions the family keeps, or an atomic operation older than a put. */
  ghost predicate Discarded(env: Env, snapshot: nat, bound: Bound, p: set<Cell>, c: Cell) {
    || !Live(env, c)
    || Killed(env, p, UpTo(snapshot), c)
    || QualKilled(env, snapshot, p, c)
    || (snapshot == MAX_SEQUENCE && bound.Below? && LexLt(c.row, bound.row) && Leads(env, p + {c}, c))
    || OverVersions(env, snapshot, p, c)
    || (c.kind.IsAtomic() && PutFed(env, p, c))
  }

  // ---------- what the automaton knows ----------

  ghost predicate DropFacts(env: Env, snapshot: nat, p: set<Cell>, st: State, c: Cell) {
    && (QualKilled(env, snapshot, p, c) <==> st.delQualTs >= c.ts && st.delQualSeq <= snapshot)
    && (!QualKilled(env, snapshot, p, c) ==> |SnapPuts(env, snapshot, p, c)| == st.versionNum)
    && (!QualKilled(env, snapshot, p, c) ==> (PutFed(env, p, c) <==> st.hasPut))
  }

  ghost predicate DropContinues(env: Env, snapshot: nat, p: set<Cell>, st: State, c: Cell) {
    && WellFormed(c) && After(p, c) && Live(env, c)
    && !Killed(env, p, UpTo(snapshot), c) && AtCell(DropFrontOf(snapshot, st), c)
  }

  ghost predicate DropInv(env: Env, snapshot: nat, p: set<Cell>, st: State) {
    && TracksAll(env, p, UpTo(snapshot), DropFrontOf(snapshot, st))
    && forall c :: DropContinues(env, snapshot, p, st, c) ==> DropFacts(env, snapshot, p, st, c)
  }

  lemma FreshDropInv(env: Env, snapshot: nat)
    ensures DropInv(env, snapshot, {}, Fresh)
  {
    StartTracks(env, UpTo(snapshot));
    assert DropFrontOf(snapshot, Fresh) == Start;
  }

  lemma DropScopeFront(snapshot: nat, bound: Bound, s: State, x: Cell)
    ensures DropFrontOf(snapshot, DropScope(snapshot, bound, s, x).0) ==
            Advance(DropFrontOf(snapshot, s), x, UpTo(snapshot))
  {
  }

  lemma DropAdmitFront(env: Env, snapshot: nat, s: State, x: Cell)
    requires Live(env, x)
    ensures DropFrontOf(snapshot, DropAdmit(env, snapshot, s, x).0) == DropFrontOf(snapshot, s)
  {
  }

  lemma DropFront(env: Env, snapshot: nat, bound: Bound, st: State, x: Cell)
    ensures DropFrontOf(snapshot, DropStep(env, snapshot, bound, st, x).0) ==
            Feed(env, DropFrontOf(snapshot, st), x, UpTo(snapshot))
  {
    var s := st.(curType := x.kind, curTs := x.ts);
    assert DropFrontOf(snapshot, s) == DropFrontOf(snapshot, st);
    if Live(env, x) {
      DropScopeFront(snapshot, bound, s, x);
      DropAdmitFront(env, snapshot, DropScope(snapshot, bound, s, x).0, x);
    }
  }

  lemma LeadQualExtend(env: Env, p: set<Cell>, x: Cell, m: Cell)
    requires After(p, x)
    ensures m in p ==> (LeadQual(env, p + {x}, m) <==> LeadQual(env, p, m))
    ensures LeadQual(env, p + {x}, x) <==> x.kind.DelQualifiers? && Live(env, x) && !SeenCell(env, p, x)
  {
    BeforeAsym(x, m);
    BeforeAsym(x, x);
  }

  lemma QualKilledExtend(env: Env, snapshot: nat, p: set<Cell>, x: Cell, c: Cell)
    requires After(p, x)
    ensures QualKilled(env, snapshot, p + {x}, c) <==>
            QualKilled(env, snapshot, p, c) || QualKills(env, snapshot, p + {x}, x, c)
  {
    var p' := p + {x};
    if QualKilled(env, snapshot, p', c) {
      var m :| QualKills(env, snapshot, p', m, c);
      LeadQualExtend(env, p, x, m);
      assert m == x || QualKills(env, snapshot, p, m, c);
    }
    if QualKilled(env, snapshot, p, c) {
      var m :| QualKills(env, snapshot, p, m, c);
      LeadQualExtend(env, p, x, m);
      assert QualKills(env, snapshot, p', m, c);
    }
  }

  lemma SnapPutsExtend(env: Env, snapshot: nat, p: set<Cell>, x: Cell, c: Cell)
    requires SameCell(x, c) && x !in p
    ensures |SnapPuts(env, snapshot, p + {x}, c)| ==
            |SnapPuts(env, snapshot, p, c)| +
            if x.kind.Value? && Live(env, x) && x.seqno <= snapshot then 1 else 0
  {
    if x.kind.Value? && Live(env, x) && x.seqno <= snapshot {
      assert SnapPuts(env, snapshot, p + {x}, c) == SnapPuts(env, snapshot, p, c) + {x};
    } else {
      assert SnapPuts(env, snapshot, p + {x}, c) == SnapPuts(env, snapshot, p, c);
    }
  }

  lemma PutFedExtend(env: Env, p: set<Cell>, x: Cell, c: Cell)
    requires SameCell(x, c)
    ensures PutFed(env, p + {x}, c) <==> PutFed(env, p, c) || (x.kind.Value? && Live(env, x))
  {
    if PutFed(env, p, c) {
      var v :| v in p && v.kind.Value? && Live(env, v) && SameCell(v, c);
      assert v in p + {x};
    }
    if x.kind.Value? && Live(env, x) { assert x in p + {x}; }
  }

  /** The state right after a live, undeleted cell that opens a column. */
  ghost predicate DropOpenedBy(snapshot: nat, st: State, x: Cell) {
    && (st.hasPut <==> x.kind.Value?)
    && st.versionNum == (if x.kind.Value? && x.seqno <= snapshot then 1 else 0)
    && (x.kind.DelQualifiers? ==> st.delQualTs == x.ts && st.delQualSeq == x.seqno)
    && (!x.kind.DelQualifiers? ==>
          || st.delQualTs == -1
          || (st.delRowTs == st.delQualTs && st.delRowSeq == st.delQualSeq)
          || (st.delColTs == st.delQualTs && st.delColSeq == st.delQualSeq))
  }

  lemma DropOpenState(env: Env, snapshot: nat, bound: Bound, st: State, x: Cell)
    requires Live(env, x) && !AtCell(DropFrontOf(snapshot, st), x)
    requires !(AtRow(DropFrontOf(snapshot, st), x) && DropFrontOf(snapshot, st).row >= x.ts)
    requires !(AtCol(DropFrontOf(snapshot, st), x) && DropFrontOf(snapshot, st).col >= x.ts)
    ensures DropOpenedBy(snapshot, DropStep(env, snapshot, bound, st, x).0, x)
  {
  }

  lemma DropFactsOpen(env: Env, snapshot: nat, p: set<Cell>, st: State, x: Cell, c: Cell)
    requires WellFormed(x) && After(p, x) && Before(x, c) && SameCell(x, c)
    requires Live(env, x) && !SeenCell(env, p, x)
    requires DropOpenedBy(snapshot, st, x)
    requires Tracks(env, p + {x}, UpTo(snapshot), DropFrontOf(snapshot, st), c)
    requires DropContinues(env, snapshot, p + {x}, st, c)
    ensures DropFacts(env, snapshot, p + {x}, st, c)
  {
    BeforeAsym(x, x);
    BeforeAsym(c, c);
    NewestFirst(x, c);
    assert forall e :: e in p && Live(env, e) ==> !SameCell(e, c);
    QualKilledExtend(env, snapshot, p, x, c);
    LeadQualExtend(env, p, x, x);
    SnapPutsExtend(env, snapshot, p, x, c);
    PutFedExtend(env, p, x, c);
    assert SnapPuts(env, snapshot, p, c) == {};
    assert !QualKilled(env, snapshot, p, c);
  }

  lemma DropFactsContinue(env: Env, snapshot: nat, bound: Bound, p: set<Cell>, st: State, x: Cell, c: Cell)
    requires WellFormed(x) && After(p, x) && Before(x, c) && SameCell(x, c)
    requires Tracks(env, p, UpTo(snapshot), DropFrontOf(snapshot, st), x)
    requires DropContinues(env, snapshot, p, st, x) && DropFacts(env, snapshot, p, st, x)
    requires DropContinues(env, snapshot, p, st, c) && DropFacts(env, snapshot, p, st, c)
    ensures DropFacts(env, snapshot, p + {x}, DropStep(env, snapshot, bound, st, x).0, c)
  {
    BeforeAsym(x, x);
    NewestFirst(x, c);
    QualKilledExtend(env, snapshot, p, x, c);
    LeadQualExtend(env, p, x, x);
    SnapPutsExtend(env, snapshot, p, x, c);
    PutFedExtend(env, p, x, c);
    assert SnapPuts(env, snapshot, p, x) == SnapPuts(env, snapshot, p, c);
  }

  lemma DropFactsDead(env: Env, snapshot: nat, bound: Bound, p: set<Cell>, st: State, x: Cell, c: Cell)
    requires WellFormed(x) && After(p, x) && Before(x, c) && SameCell(x, c) && !Live(env, x)
    requires DropContinues(env, snapshot, p, st, c) && DropFacts(env, snapshot, p, st, c)
    ensures DropFacts(env, snapshot, p + {x}, DropStep(env, snapshot, bound, st, x).0, c)
  {
    BeforeAsym(x, x);
    QualKilledExtend(env, snapshot, p, x, c);
    SnapPutsExtend(env, snapshot, p, x, c);
    PutFedExtend(env, p, x, c);
  }

  lemma DropStepInv(env: Env, snapshot: nat, bound: Bound, p: set<Cell>, st: State, x: Cell)
    requires WellFormed(x) && After(p, x)
    requires DropInv(env, snapshot, p, st)
    ensures DropInv(env, snapshot, p + {x}, DropStep(env, snapshot, bound, st, x).0)
  {
    var lim := UpTo(snapshot);
    var st' := DropStep(env, snapshot, bound, st, x).0;
    var p' := p + {x};
    FeedTracks(env, p, lim, DropFrontOf(snapshot, st), x);
    DropFront(env, snapshot, bound, st, x);
    forall c | DropContinues(env, snapshot, p', st', c) ensures DropFacts(env, snapshot, p', st', c) {
      assert Tracks(env, p', lim, DropFrontOf(snapshot, st'), c);
      assert After(p, c) && Before(x, c);
      KilledExtend(env, p, lim, x, c);
      assert SeenCell(env, p', c);
      if !SameCell(x, c) {
        NothingOtherCell(p, x, c);
        assert false;
      }
      NewestFirst(x, c);
      BeforeAsym(c, c);
      KilledDown(env, p, lim, x, c);
      assert Tracks(env, p, lim, DropFrontOf(snapshot, st), x);
      if !Live(env, x) {
        assert DropContinues(env, snapshot, p, st, c);
        DropFactsDead(env, snapshot, bound, p, st, x, c);
      } else if AtCell(DropFrontOf(snapshot, st), x) {
        assert DropContinues(env, snapshot, p, st, x) && DropContinues(env, snapshot, p, st, c);
        DropFactsContinue(env, snapshot, bound, p, st, x, c);
      } else {
        DropOpenState(env, snapshot, bound, st, x);
        DropFactsOpen(env, snapshot, p, st', x, c);
      }
    }
  }

  /** When the automaton enters a row, a family or a qualifier with a mark, that mark leads. */
  lemma EntersWithLead(env: Env, snapshot: nat, p: set<Cell>, st: State, x: Cell)
    requires WellFormed(x) && After(p, x) && Live(env, x)
    requires TracksAll(env, p, UpTo(snapshot), DropFrontOf(snapshot, st))
    requires !Killed(env, p, UpTo(snapshot), x)
    ensures Leads(env, p + {x}, x) <==>
            || (x.row != st.lastKey && (x.kind.Del? || x.kind.DelColumn? || x.kind.DelQualifiers?))
            || (x.row == st.lastKey && x.cf != st.lastCol && (x.kind.DelColumn? || x.kind.DelQualifiers?))
            || (x.row == st.lastKey && x.cf == st.lastCol && x.qual != st.lastQual && x.kind.DelQualifiers?)
  {
    var lim := UpTo(snapshot);
    assert Tracks(env, p, lim, DropFrontOf(snapshot, st), x);
    LeadsExtend(env, p, x, x);
    LeadQualExtend(env, p, x, x);
    if x.kind.DelColumn? && x.row == st.lastKey && x.cf != st.lastCol {
      NewColLeads(env, p, lim, x);
    }
    if SeenCol(env, p, lim, x) {
      var e :| e in p && Live(env, e) && SameCol(e, x) && !RowKilled(env, p, lim, e);
      assert !LeadCol(env, p + {x}, x);
    }
  }

  lemma DropVerdictContinues(env: Env, snapshot: nat, bound: Bound, p: set<Cell>, st: State, x: Cell)
    requires WellFormed(x) && After(p, x) && Live(env, x) && !Killed(env, p, UpTo(snapshot), x)
    requires DropInv(env, snapshot, p, st) && AtCell(DropFrontOf(snapshot, st), x)
    ensures DropStep(env, snapshot, bound, st, x).1 <==> Discarded(env, snapshot, bound, p, x)
  {
    assert Tracks(env, p, UpTo(snapshot), DropFrontOf(snapshot, st), x);
    BeforeAsym(x, x);
    EntersWithLead(env, snapshot, p, st, x);
    SnapPutsExtend(env, snapshot, p, x, x);
    assert DropContinues(env, snapshot, p, st, x);
  }

  lemma DropVerdictOpens(env: Env, snapshot: nat, bound: Bound, p: set<Cell>, st: State, x: Cell)
    requires WellFormed(x) && After(p, x) && Live(env, x) && !Killed(env, p, UpTo(snapshot), x)
    requires DropInv(env, snapshot, p, st) && !AtCell(DropFrontOf(snapshot, st), x)
    ensures DropStep(env, snapshot, bound, st, x).1 <==> Discarded(env, snapshot, bound, p, x)
  {
    assert Tracks(env, p, UpTo(snapshot), DropFrontOf(snapshot, st), x);
    BeforeAsym(x, x);
    EntersWithLead(env, snapshot, p, st, x);
    SnapPutsExtend(env, snapshot, p, x, x);
    assert SnapPuts(env, snapshot, p, x) == {} && !PutFed(env, p, x);
    assert !QualKilled(env, snapshot, p, x);
  }

  /** The verdict of Drop is the verdict of the cells fed so far. */
  lemma DropStepVerdict(env: Env, snapshot: nat, bound: Bound, p: set<Cell>, st: State, x: Cell)
    requires WellFormed(x) && After(p, x)
    requires DropInv(env, snapshot, p, st)
    ensures DropStep(env, snapshot, bound, st, x).1 <==> Discarded(env, snapshot, bound, p, x)
  {
    if Live(env, x) {
      assert Tracks(env, p, UpTo(snapshot), DropFrontOf(snapshot, st), x);
      if !Killed(env, p, UpTo(snapshot), x) {
        if AtCell(DropFrontOf(snapshot, st), x) {
          DropVerdictContinues(env, snapshot, bound, p, st, x);
        } else {
          DropVerdictOpens(env, snapshot, bound, p, st, x);
        }
      }
    }
  }

  lemma DropRunUnfold(env: Env, snapshot: nat, bound: Bound, st: State, h: seq<Cell>)
    requires h != []
    ensures var (s, dropped) := DropStep(env, snapshot, bound, st, h[0]);
            DropRun(env, snapshot, bound, st, h) ==
            Prepend(!dropped, h[0], DropRun(env, snapshot, bound, s, h[1..]))
  {
  }

  /** A compaction pass from any point of a stream discards exactly the cells the rule
      discards, and keeps the others in their order. */
  lemma {:induction false} DropRunDiscards(env: Env, snapshot: nat, bound: Bound, p: set<Cell>, st: State, h: seq<Cell>)
    requires Sorted(h) && Stream(p + Elems(h)) && (forall c :: c in h ==> After(p, c))
    requires DropInv(env, snapshot, p, st)
    ensures Sorted(DropRun(env, snapshot, bound, st, h))
    ensures forall c :: c in DropRun(env, snapshot, bound, st, h) <==>
                        c in h && !Discarded(env, snapshot, bound, Upto(p + Elems(h), c), c)
    decreases |h|
  {
    if h != [] {
      var x, rest := h[0], h[1..];
      assert x in p + Elems(h);
      DropStepVerdict(env, snapshot, bound, p, st, x);
      DropStepInv(env, snapshot, bound, p, st, x);
      var step := DropStep(env, snapshot, bound, st, x);
      ElemsHead(p, h);
      UptoHead(p, h);
      TailAfter(p, h);
      DropRunDiscards(env, snapshot, bound, p + {x}, step.0, rest);
      DropRunUnfold(env, snapshot, bound, st, h);
      PrependSorted(!step.1, x, rest, DropRun(env, snapshot, bound, step.0, rest));
    }
  }
}

/** Rewriting any part of a history through `Drop` leaves what a reader sees, at every
    snapshot the compaction respects, unchanged. */
module Compaction {
  import opened Collections
  import opened Bytes
  import opened Cells
  import opened Frontier
  import opened Strategy
  import opened Visibility
  import opened ReadSemantics
  import opened Discarding

  /** One compaction: the schema, its clock, the smallest snapshot and the lower bound
      below which leading marks may go. */
  datatype Job = Job(env: Env, snapshot: nat, bound: Bound)

  /** `c` is the part of the history `h` that the job rewrites.  Where leading marks may
      go, it must hold every cell of the row. */
  ghost predicate Rewrites(j: Job, h: set<Cell>, c: set<Cell>) {
    && History(h) && MarksFirst(h) && c <= h
    && (forall x :: x in h ==> x.seqno <= MAX_SEQUENCE)
    && (forall x :: x in h && x !in c ==> !MarkDroppable(j.snapshot, j.bound, x.row))
  }

  ghost predicate Gone(j: Job, c: set<Cell>, x: Cell) {
    Discarded(j.env, j.snapshot, j.bound, Upto(c, x), x)
  }

  ghost function Survivors(j: Job, c: set<Cell>): set<Cell> {
    set x | x in c && !Gone(j, c, x)
  }

  /** The cells a reader at snapshot `s` can see of `h`. */
  ghost function At(h: set<Cell>, s: nat): set<Cell> {
    set x | x in h && x.seqno <= s
  }

  ghost function Rewritten(j: Job, h: set<Cell>, c: set<Cell>): set<Cell> {
    Survivors(j, c) + (h - c)
  }

  /** What a reader at `s` may find afterwards: everything that was not discarded, and
      possibly some of what was, though nothing of a row whose leading marks may go. */
  ghost predicate Between(j: Job, h: set<Cell>, c: set<Cell>, s: nat, a: set<Cell>) {
    && At(Rewritten(j, h, c), s) <= a <= At(h, s)
    && forall x :: x in a && x !in Rewritten(j, h, c) ==> !MarkDroppable(j.snapshot, j.bound, x.row)
  }

  /** A reader no older than the job: same schema, later clock, snapshot not below. */
  ghost predicate Reads(j: Job, env: Env, s: nat) {
    env.schema == j.env.schema && env.now >= j.env.now && s >= j.snapshot
  }

  lemma LiveEarlier(j: Job, env: Env, c: Cell)
    requires env.schema == j.env.schema && env.now >= j.env.now && Live(env, c)
    ensures Live(j.env, c)
  {
  }

  ghost predicate Deleted(h: set<Cell>, c: Cell) {
    RowDeleted(h, c) || ColDeleted(h, c) || QualDeleted(h, c)
  }

  /** Whatever the compaction deletes at or above `x` in its column, a mark the reader
      sees deletes too. */
  lemma KilledMeansDeleted(j: Job, h: set<Cell>, c: set<Cell>, s: nat, v: Cell, x: Cell)
    requires Rewrites(j, h, c) && s >= j.snapshot
    requires SameCell(v, x) && v.ts >= x.ts
    ensures RowKilled(j.env, Upto(c, v), UpTo(j.snapshot), v) ==> RowDeleted(At(h, s), x)
    ensures ColKilled(j.env, Upto(c, v), UpTo(j.snapshot), v) ==> ColDeleted(At(h, s), x)
    ensures QualKilled(j.env, j.snapshot, Upto(c, v), v) ==> QualDeleted(At(h, s), x)
  {
    var p := Upto(c, v);
    if RowKilled(j.env, p, UpTo(j.snapshot), v) {
      var m :| RowKills(j.env, p, UpTo(j.snapshot), m, v);
      assert m in At(h, s);
    }
    if ColKilled(j.env, p, UpTo(j.snapshot), v) {
      var m :| ColKills(j.env, p, UpTo(j.snapshot), m, v);
      assert m in At(h, s);
    }
    if QualKilled(j.env, j.snapshot, p, v) {
      var m :| QualKills(j.env, j.snapshot, p, m, v);
      assert m in At(h, s);
    }
  }

  // ---------- a visible cell stays visible ----------

  lemma SnapPutsAreVersions(j: Job, h: set<Cell>, c: set<Cell>, s: nat, v: Cell, x: Cell)
    requires Rewrites(j, h, c) && s >= j.snapshot && SameCell(v, x) && (v == x || Before(v, x)) && v in c
    ensures SnapPuts(j.env, j.snapshot, Upto(c, v) + {v}, v) <= Versions(At(h, s), x)
  {
    forall w | w in SnapPuts(j.env, j.snapshot, Upto(c, v) + {v}, v) ensures w in Versions(At(h, s), x) {
      if w != v && v != x { BeforeTrans(w, v, x); }
    }
  }

  lemma PutSurvives(j: Job, env: Env, h: set<Cell>, c: set<Cell>, s: nat, v: Cell, x: Cell)
    requires Rewrites(j, h, c) && Reads(j, env, s)
    requires x.kind.Value? && Live(env, x) && !Deleted(At(h, s), x)
    requires |Versions(At(h, s), x)| <= env.schema[x.cf].maxVersions
    requires v in c && v.kind.Value? && SameCell(v, x) && (v == x || Before(v, x))
    ensures !Gone(j, c, v)
  {
    if v != x { NewestFirst(v, x); }
    LiveAbove(env, v, x);
    LiveEarlier(j, env, v);
    KilledMeansDeleted(j, h, c, s, v, x);
    SnapPutsAreVersions(j, h, c, s, v, x);
    SubsetSize(SnapPuts(j.env, j.snapshot, Upto(c, v) + {v}, v), Versions(At(h, s), x));
  }

  lemma {:induction false} LastOf(s: set<Cell>) returns (m: Cell)
    requires s != {} && Distinct(s)
    ensures m in s && forall e :: e in s ==> e == m || Before(e, m)
    decreases s
  {
    var x :| x in s;
    if s == {x} {
      m := x;
    } else {
      assert s == {x} + (s - {x});
      var m' := LastOf(s - {x});
      if Before(m', x) {
        m := x;
        forall e | e in s ensures e == m || Before(e, m) {
          if e != x && e != m' { BeforeTrans(e, m', x); }
        }
      } else {
        m := m';
      }
    }
  }

  /** The compaction cannot put a delete-one-version mark right above a visible put. */
  lemma NotOneDeleted(j: Job, env: Env, h: set<Cell>, c: set<Cell>, s: nat, a: set<Cell>, x: Cell)
    requires Rewrites(j, h, c) && Reads(j, env, s) && Between(j, h, c, s, a)
    requires x in At(h, s) && Visible(env, At(h, s), x)
    ensures !OneDeleted(a, x)
  {
    var before := At(h, s);
    if OneDeleted(a, x) {
      var d :| Precedes(a, d, x) && d.kind.DelQualifier?;
      var above := set e | e in before && SameCell(e, x) && Before(e, x);
      assert d in above;
      var d' := LastOf(above);
      assert Precedes(before, d', x);
      NewestFirst(d', x);
      assert !d'.kind.DelQualifier? && !d'.kind.DelQualifiers?;
      assert !d'.kind.Del? && !d'.kind.DelColumn?;
      assert d'.kind.Value?;
      if d' in c { PutSurvives(j, env, h, c, s, d', x); }
      assert d' in a;
      BeforeAsym(d, d');
    }
  }

  lemma VisibleStays(j: Job, env: Env, h: set<Cell>, c: set<Cell>, s: nat, a: set<Cell>, x: Cell)
    requires Rewrites(j, h, c) && Reads(j, env, s) && Between(j, h, c, s, a)
    requires x in At(h, s) && Visible(env, At(h, s), x)
    ensures x in a && Visible(env, a, x)
  {
    var before := At(h, s);
    if x in c { PutSurvives(j, env, h, c, s, x, x); }
    NotOneDeleted(j, env, h, c, s, a, x);
    assert Versions(a, x) <= Versions(before, x);
    SubsetSize(Versions(a, x), Versions(before, x));
  }

  // ---------- nothing hidden comes back ----------

  /** Leading is a matter of what comes before, so any cut above the mark agrees. */
  lemma LeadsUpto(env: Env, c: set<Cell>, m: Cell, x: Cell)
    requires m in c && Before(m, x)
    ensures LeadRow(env, Upto(c, x), m) <==> LeadRow(env, c, m)
    ensures LeadCol(env, Upto(c, x), m) <==> LeadCol(env, c, m)
    ensures LeadQual(env, Upto(c, x), m) <==> LeadQual(env, c, m)
  {
    forall e | e in c && Before(e, m) ensures e in Upto(c, x) { BeforeTrans(e, m, x); }
  }

  lemma LeadsSelf(env: Env, c: set<Cell>, m: Cell)
    requires m in c
    ensures LeadRow(env, Upto(c, m) + {m}, m) <==> LeadRow(env, c, m)
    ensures LeadCol(env, Upto(c, m) + {m}, m) <==> LeadCol(env, c, m)
    ensures LeadQual(env, Upto(c, m) + {m}, m) <==> LeadQual(env, c, m)
  {
    BeforeAsym(m, m);
  }

  /** The cell under discussion: a put the reader still finds a the rewrite. */
  ghost predicate Found(j: Job, env: Env, h: set<Cell>, c: set<Cell>, s: nat, a: set<Cell>, x: Cell) {
    && Rewrites(j, h, c) && Reads(j, env, s) && Between(j, h, c, s, a)
    && x in a && x.kind.Value? && Live(env, x)
  }

  lemma RowLeadSurvives(j: Job, env: Env, h: set<Cell>, c: set<Cell>, s: nat, a: set<Cell>, m: Cell, x: Cell)
    requires Found(j, env, h, c, s, a, x)
    requires m in c && LeadRow(j.env, c, m) && m.seqno <= j.snapshot && SameRow(m, x) && m.ts >= x.ts
    ensures m in a
  {
    MarkBeforePut(m, x);
    LeadsUpto(j.env, c, m, x);
    assert x in c ==> RowKills(j.env, Upto(c, x), UpTo(j.snapshot), m, x);
    assert !Gone(j, c, m);
  }

  lemma RowDeletedStays(j: Job, env: Env, h: set<Cell>, c: set<Cell>, s: nat, a: set<Cell>, x: Cell)
    requires Found(j, env, h, c, s, a, x) && RowDeleted(At(h, s), x)
    ensures RowDeleted(a, x)
  {
    var m :| m in At(h, s) && m.kind.Del? && SameRow(m, x) && m.ts >= x.ts;
    if m in c && Gone(j, c, m) {
      var p := Upto(c, m);
      LeadsSelf(j.env, c, m);
      var m1 := m;
      if RowKilled(j.env, p, UpTo(j.snapshot), m) {
        m1 :| RowKills(j.env, p, UpTo(j.snapshot), m1, m);
        LeadsUpto(j.env, c, m1, m);
      }
      RowLeadSurvives(j, env, h, c, s, a, m1, x);
    } else {
      assert m in a;
    }
  }

  lemma ColLeadSurvives(j: Job, env: Env, h: set<Cell>, c: set<Cell>, s: nat, a: set<Cell>, m: Cell, x: Cell)
    requires Found(j, env, h, c, s, a, x) && !RowDeleted(At(h, s), x)
    requires m in c && LeadCol(j.env, c, m) && m.seqno <= j.snapshot && SameCol(m, x) && m.ts >= x.ts
    ensures m in a
  {
    MarkBeforePut(m, x);
    LeadsUpto(j.env, c, m, x);
    assert x in c ==> ColKills(j.env, Upto(c, x), UpTo(j.snapshot), m, x);
    assert !RowKilled(j.env, Upto(c, m), UpTo(j.snapshot), m) by {
      RowKilledReaches(j, h, c, s, m, x);
    }
    assert !Gone(j, c, m);
  }

  lemma RowKilledReaches(j: Job, h: set<Cell>, c: set<Cell>, s: nat, m: Cell, x: Cell)
    requires Rewrites(j, h, c) && s >= j.snapshot && SameRow(m, x) && m.ts >= x.ts
    ensures RowKilled(j.env, Upto(c, m), UpTo(j.snapshot), m) ==> RowDeleted(At(h, s), x)
  {
    if RowKilled(j.env, Upto(c, m), UpTo(j.snapshot), m) {
      var m1 :| RowKills(j.env, Upto(c, m), UpTo(j.snapshot), m1, m);
      assert m1 in At(h, s);
    }
  }

  lemma ColDeletedStays(j: Job, env: Env, h: set<Cell>, c: set<Cell>, s: nat, a: set<Cell>, x: Cell)
    requires Found(j, env, h, c, s, a, x) && ColDeleted(At(h, s), x) && !RowDeleted(At(h, s), x)
    ensures ColDeleted(a, x)
  {
    var m :| m in At(h, s) && m.kind.DelColumn? && SameCol(m, x) && m.ts >= x.ts;
    if m in c && Gone(j, c, m) {
      var p := Upto(c, m);
      LeadsSelf(j.env, c, m);
      RowKilledReaches(j, h, c, s, m, x);
      var m1 := m;
      if ColKilled(j.env, p, UpTo(j.snapshot), m) {
        m1 :| ColKills(j.env, p, UpTo(j.snapshot), m1, m);
        LeadsUpto(j.env, c, m1, m);
      }
      ColLeadSurvives(j, env, h, c, s, a, m1, x);
    } else {
      assert m in a;
    }
  }

  lemma QualLeadSurvives(j: Job, env: Env, h: set<Cell>, c: set<Cell>, s: nat, a: set<Cell>, m: Cell, x: Cell)
    requires Found(j, env, h, c, s, a, x) && !RowDeleted(At(h, s), x) && !ColDeleted(At(h, s), x)
    requires m in c && LeadQual(j.env, c, m) && m.seqno <= j.snapshot && SameCell(m, x) && m.ts >= x.ts
    ensures m in a
  {
    MarkBeforePut(m, x);
    LeadsUpto(j.env, c, m, x);
    assert x in c ==> QualKills(j.env, j.snapshot, Upto(c, x), m, x);
    KilledMeansDeleted(j, h, c, s, m, x);
    assert !Gone(j, c, m);
  }

  lemma QualDeletedStays(j: Job, env: Env, h: set<Cell>, c: set<Cell>, s: nat, a: set<Cell>, x: Cell)
    requires Found(j, env, h, c, s, a, x) && !RowDeleted(At(h, s), x) && !ColDeleted(At(h, s), x)
    requires QualDeleted(At(h, s), x)
    ensures QualDeleted(a, x)
  {
    var m :| m in At(h, s) && m.kind.DelQualifiers? && SameCell(m, x) && m.ts >= x.ts;
    if m in c && Gone(j, c, m) {
      var p := Upto(c, m);
      LeadsSelf(j.env, c, m);
      KilledMeansDeleted(j, h, c, s, m, x);
      var m1 := m;
      if QualKilled(j.env, j.snapshot, p, m) {
        m1 :| QualKills(j.env, j.snapshot, p, m1, m);
        LeadsUpto(j.env, c, m1, m);
      }
      QualLeadSurvives(j, env, h, c, s, a, m1, x);
    } else {
      assert m in a;
    }
  }

  /** The newest `n` puts the snapshot sees above `x`, each within the first `n`. */
  lemma {:induction false} NewestPuts(env: Env, snapshot: nat, c: set<Cell>, x: Cell, n: nat)
    returns (top: set<Cell>)
    requires Distinct(c) && |SnapPuts(env, snapshot, Upto(c, x), x)| >= n
    ensures top <= SnapPuts(env, snapshot, Upto(c, x), x) && |top| >= n
    ensures forall v :: v in top ==> |SnapPuts(env, snapshot, Upto(c, v) + {v}, v)| <= n
    decreases |SnapPuts(env, snapshot, Upto(c, x), x)|
  {
    var puts := SnapPuts(env, snapshot, Upto(c, x), x);
    if |puts| == n {
      top := puts;
      forall v | v in puts ensures |SnapPuts(env, snapshot, Upto(c, v) + {v}, v)| <= n {
        forall w | w in SnapPuts(env, snapshot, Upto(c, v) + {v}, v) ensures w in puts {
          if w != v { BeforeTrans(w, v, x); }
        }
        SubsetSize(SnapPuts(env, snapshot, Upto(c, v) + {v}, v), puts);
      }
    } else {
      var last := LastOf(puts);
      var above := SnapPuts(env, snapshot, Upto(c, last), last);
      assert above == puts - {last} by {
        BeforeAsym(last, last);
        forall w | w in above ensures w in puts - {last} { BeforeTrans(w, last, x); }
      }
      top := NewestPuts(env, snapshot, c, last, n);
    }
  }

  /** A put within the versions its family keeps survives, unless a mark deletes it. */
  lemma TopPutStays(j: Job, env: Env, h: set<Cell>, c: set<Cell>, s: nat, a: set<Cell>, v: Cell, x: Cell)
    requires Found(j, env, h, c, s, a, x) && !Deleted(At(h, s), x)
    requires v in c && v.kind.Value? && Live(j.env, v) && v.seqno <= j.snapshot
    requires SameCell(v, x) && Before(v, x)
    requires |SnapPuts(j.env, j.snapshot, Upto(c, v) + {v}, v)| <= env.schema[x.cf].maxVersions
    ensures v in Versions(a, x) && v != x
  {
    BeforeAsym(x, x);
    NewestFirst(v, x);
    KilledMeansDeleted(j, h, c, s, v, x);
    assert !Gone(j, c, v);
  }

  /** If the compaction counted a full set of versions above `d`, the reader finds them all. */
  lemma VersionsFull(j: Job, env: Env, h: set<Cell>, c: set<Cell>, s: nat, a: set<Cell>, d: Cell, x: Cell)
    requires Found(j, env, h, c, s, a, x) && !Deleted(At(h, s), x)
    requires d in c && SameCell(d, x) && Before(d, x)
    requires |SnapPuts(j.env, j.snapshot, Upto(c, d), d)| >= env.schema[x.cf].maxVersions
    ensures |Versions(a, x)| > env.schema[x.cf].maxVersions
  {
    var top := NewestPuts(j.env, j.snapshot, c, d, env.schema[x.cf].maxVersions);
    forall v | v in top ensures v in Versions(a, x) && v != x {
      BeforeTrans(v, d, x);
      TopPutStays(j, env, h, c, s, a, v, x);
    }
    assert x in Versions(a, x);
    SubsetSize(top + {x}, Versions(a, x));
  }

  lemma OneDeletedStays(j: Job, env: Env, h: set<Cell>, c: set<Cell>, s: nat, a: set<Cell>, x: Cell)
    requires Found(j, env, h, c, s, a, x) && !Deleted(At(h, s), x) && OneDeleted(At(h, s), x)
    ensures OneDeleted(a, x) ||
            |Versions(a, x)| > env.schema[x.cf].maxVersions
  {
    var d :| Precedes(At(h, s), d, x) && d.kind.DelQualifier?;
    if d in a {
      assert Precedes(a, d, x);
    } else {
      NewestFirst(d, x);
      KilledMeansDeleted(j, h, c, s, d, x);
      assert OverVersions(j.env, j.snapshot, Upto(c, d), d);
      VersionsFull(j, env, h, c, s, a, d, x);
    }
  }

  lemma VersionsStay(j: Job, env: Env, h: set<Cell>, c: set<Cell>, s: nat, a: set<Cell>, x: Cell)
    requires Found(j, env, h, c, s, a, x) && !Deleted(At(h, s), x)
    requires |Versions(At(h, s), x)| > env.schema[x.cf].maxVersions
    ensures |Versions(a, x)| > env.schema[x.cf].maxVersions
  {
    var before := At(h, s);
    if Versions(before, x) <= Versions(a, x) {
      SubsetSize(Versions(before, x), Versions(a, x));
    } else {
      var v :| v in Versions(before, x) && v !in Versions(a, x);
      assert v in c && Gone(j, c, v) && Before(v, x);
      NewestFirst(v, x);
      LiveAbove(env, v, x);
      LiveEarlier(j, env, v);
      KilledMeansDeleted(j, h, c, s, v, x);
      assert OverVersions(j.env, j.snapshot, Upto(c, v), v);
      BeforeAsym(v, v);
      SnapPutsExtend(j.env, j.snapshot, Upto(c, v), v, v);
      VersionsFull(j, env, h, c, s, a, v, x);
    }
  }

  lemma HiddenStays(j: Job, env: Env, h: set<Cell>, c: set<Cell>, s: nat, a: set<Cell>, x: Cell)
    requires Rewrites(j, h, c) && Reads(j, env, s) && Between(j, h, c, s, a)
    requires x in a && Visible(env, a, x)
    ensures x in At(h, s) && Visible(env, At(h, s), x)
  {
    var before := At(h, s);
    if RowDeleted(before, x) {
      RowDeletedStays(j, env, h, c, s, a, x);
    } else if ColDeleted(before, x) {
      ColDeletedStays(j, env, h, c, s, a, x);
    } else if QualDeleted(before, x) {
      QualDeletedStays(j, env, h, c, s, a, x);
    } else {
      if OneDeleted(before, x) { OneDeletedStays(j, env, h, c, s, a, x); }
      if |Versions(before, x)| > env.schema[x.cf].maxVersions { VersionsStay(j, env, h, c, s, a, x); }
    }
  }
}

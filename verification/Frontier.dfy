/** The part of the strategy's state that `Drop` and `ScanDrop` share: where the
    stream stands (row, family, qualifier) and up to which timestamp the current
    row and the current family are deleted.  Both automata move it the same way,
    so what it means is proved once. */
module Frontier {
  import opened Bytes
  import opened Cells

  /** Which delete marks take effect: all of them for a reader, those at or below the
      snapshot for a compaction. */
  datatype Limit = NoLimit | UpTo(snapshot: nat)
  {
    predicate Active(m: Cell) {
      NoLimit? || m.seqno <= snapshot
    }
  }

  /** `row` and `col` are the deletion stamps in force, -1 for none. */
  datatype Front = Front(key: Bytes, fam: Bytes, qual: Bytes, row: int, col: int)

  const Start := Front([], [], [], -1, -1)

  /** The branches on the three names and the two stamps, for a live cell. */
  function Advance(f: Front, x: Cell, lim: Limit): Front {
    var mark := if lim.Active(x) then x.ts as int else -1;
    if x.row != f.key then
      Front(x.row, x.cf, x.qual,
            if x.kind.Del? then mark else -1,
            if x.kind.Del? || x.kind.DelColumn? then mark else -1)
    else if f.row >= x.ts then f
    else if x.cf != f.fam then
      Front(f.key, x.cf, x.qual, f.row, if x.kind.DelColumn? then mark else -1)
    else if f.col >= x.ts then f
    else Front(f.key, f.fam, x.qual, f.row, f.col)
  }

  function Feed(env: Env, f: Front, x: Cell, lim: Limit): Front {
    if Live(env, x) then Advance(f, x, lim) else f
  }

  // ---------- what the marks of a set of cells delete ----------

  /** `m` is a row mark and no live cell of its row precedes it. */
  ghost predicate LeadRow(env: Env, p: set<Cell>, m: Cell) {
    && m in p && m.kind.Del?
    && forall e :: e in p && SameRow(e, m) && Before(e, m) ==> !Live(env, e)
  }

  /** `m` is a live column mark and no live cell of its family precedes it. */
  ghost predicate LeadCol(env: Env, p: set<Cell>, m: Cell) {
    && m in p && m.kind.DelColumn? && Live(env, m)
    && forall e :: e in p && SameCol(e, m) && Before(e, m) ==> !Live(env, e)
  }

  ghost predicate RowKills(env: Env, p: set<Cell>, lim: Limit, m: Cell, c: Cell) {
    LeadRow(env, p, m) && lim.Active(m) && m != c && SameRow(m, c) && m.ts >= c.ts
  }

  ghost predicate ColKills(env: Env, p: set<Cell>, lim: Limit, m: Cell, c: Cell) {
    LeadCol(env, p, m) && lim.Active(m) && m != c && SameCol(m, c) && m.ts >= c.ts
  }

  ghost predicate RowKilled(env: Env, p: set<Cell>, lim: Limit, c: Cell) {
    exists m :: RowKills(env, p, lim, m, c)
  }

  ghost predicate ColKilled(env: Env, p: set<Cell>, lim: Limit, c: Cell) {
    exists m :: ColKills(env, p, lim, m, c)
  }

  ghost predicate Killed(env: Env, p: set<Cell>, lim: Limit, c: Cell) {
    RowKilled(env, p, lim, c) || ColKilled(env, p, lim, c)
  }

  // ---------- what the frontier knows ----------

  ghost predicate SeenRow(env: Env, p: set<Cell>, c: Cell) {
    exists e :: e in p && Live(env, e) && SameRow(e, c)
  }

  ghost predicate SeenCol(env: Env, p: set<Cell>, lim: Limit, c: Cell) {
    exists e :: e in p && Live(env, e) && SameCol(e, c) && !RowKilled(env, p, lim, e)
  }

  ghost predicate SeenCell(env: Env, p: set<Cell>, c: Cell) {
    exists e :: e in p && Live(env, e) && SameCell(e, c)
  }

  predicate AtRow(f: Front, c: Cell) {
    f.key == c.row
  }

  predicate AtCol(f: Front, c: Cell) {
    f.key == c.row && f.fam == c.cf
  }

  predicate AtCell(f: Front, c: Cell) {
    f.key == c.row && f.fam == c.cf && f.qual == c.qual
  }

  /** The frontier, reached after the cells of `p`, answers every question about the
      later cell `c` as `p` does. */
  ghost predicate Tracks(env: Env, p: set<Cell>, lim: Limit, f: Front, c: Cell) {
    && (AtRow(f, c) <==> SeenRow(env, p, c))
    && (RowKilled(env, p, lim, c) <==> AtRow(f, c) && f.row >= c.ts)
    && (!RowKilled(env, p, lim, c) ==> (AtCol(f, c) <==> SeenCol(env, p, lim, c)))
    && (!RowKilled(env, p, lim, c) ==>
          (ColKilled(env, p, lim, c) <==> AtCol(f, c) && f.col >= c.ts))
    && (!Killed(env, p, lim, c) ==> (AtCell(f, c) <==> SeenCell(env, p, c)))
  }

  ghost predicate TracksAll(env: Env, p: set<Cell>, lim: Limit, f: Front) {
    forall c :: WellFormed(c) && After(p, c) ==> Tracks(env, p, lim, f, c)
  }

  lemma StartTracks(env: Env, lim: Limit)
    ensures TracksAll(env, {}, lim, Start)
  {
    forall c | WellFormed(c) && After({}, c)
      ensures Tracks(env, {}, lim, Start, c)
    {
    }
  }

  // ---------- one more cell ----------

  /** A later cell changes neither which earlier marks lead nor what they delete; it
      leads itself exactly when nothing live of its row (family) came before. */
  lemma LeadsExtend(env: Env, p: set<Cell>, x: Cell, m: Cell)
    requires After(p, x)
    ensures m in p ==> (LeadRow(env, p + {x}, m) <==> LeadRow(env, p, m))
    ensures m in p ==> (LeadCol(env, p + {x}, m) <==> LeadCol(env, p, m))
    ensures LeadRow(env, p + {x}, x) <==> x.kind.Del? && !SeenRow(env, p, x)
    ensures LeadCol(env, p + {x}, x) <==>
            x.kind.DelColumn? && Live(env, x) && forall e :: e in p && SameCol(e, x) ==> !Live(env, e)
  {
    BeforeAsym(x, m);
    BeforeAsym(x, x);
  }

  lemma KilledExtend(env: Env, p: set<Cell>, lim: Limit, x: Cell, c: Cell)
    requires After(p, x)
    ensures RowKilled(env, p + {x}, lim, c) <==>
            RowKilled(env, p, lim, c) || RowKills(env, p + {x}, lim, x, c)
    ensures ColKilled(env, p + {x}, lim, c) <==>
            ColKilled(env, p, lim, c) || ColKills(env, p + {x}, lim, x, c)
  {
    var p' := p + {x};
    if RowKilled(env, p', lim, c) {
      var m :| RowKills(env, p', lim, m, c);
      LeadsExtend(env, p, x, m);
      assert m == x || RowKills(env, p, lim, m, c);
    }
    if RowKilled(env, p, lim, c) {
      var m :| RowKills(env, p, lim, m, c);
      LeadsExtend(env, p, x, m);
      assert RowKills(env, p', lim, m, c);
    }
    if ColKilled(env, p', lim, c) {
      var m :| ColKills(env, p', lim, m, c);
      LeadsExtend(env, p, x, m);
      assert m == x || ColKills(env, p, lim, m, c);
    }
    if ColKilled(env, p, lim, c) {
      var m :| ColKills(env, p, lim, m, c);
      LeadsExtend(env, p, x, m);
      assert ColKills(env, p', lim, m, c);
    }
  }

  /** A deletion that reaches a cell reaches every later cell of the same column. */
  lemma KilledDown(env: Env, p: set<Cell>, lim: Limit, e: Cell, c: Cell)
    requires SameCell(e, c) && e.ts >= c.ts && c !in p
    ensures RowKilled(env, p, lim, e) ==> RowKilled(env, p, lim, c)
    ensures ColKilled(env, p, lim, e) ==> ColKilled(env, p, lim, c)
  {
    if RowKilled(env, p, lim, e) {
      var m :| RowKills(env, p, lim, m, e);
      assert RowKills(env, p, lim, m, c);
    }
    if ColKilled(env, p, lim, e) {
      var m :| ColKills(env, p, lim, m, e);
      assert ColKills(env, p, lim, m, c);
    }
  }

  lemma NothingOtherRow(p: set<Cell>, x: Cell, c: Cell)
    requires After(p, x) && Before(x, c) && !SameRow(x, c)
    ensures forall e :: e in p ==> !SameRow(e, c)
  {
    forall e | e in p ensures !SameRow(e, c) { Grouping(e, x, c); }
  }

  lemma NothingOtherCol(p: set<Cell>, x: Cell, c: Cell)
    requires After(p, x) && Before(x, c) && !SameCol(x, c)
    ensures forall e :: e in p ==> !SameCol(e, c)
  {
    forall e | e in p ensures !SameCol(e, c) { Grouping(e, x, c); }
  }

  lemma NothingOtherCell(p: set<Cell>, x: Cell, c: Cell)
    requires After(p, x) && Before(x, c) && !SameCell(x, c)
    ensures forall e :: e in p ==> !SameCell(e, c)
  {
    forall e | e in p ensures !SameCell(e, c) { Grouping(e, x, c); }
  }

  /** A dead cell leaves the frontier and the meaning of the set unchanged. */
  lemma TracksDead(env: Env, p: set<Cell>, lim: Limit, f: Front, x: Cell, c: Cell)
    requires WellFormed(x) && After(p, x) && Before(x, c) && After(p, c) && !Live(env, x)
    requires Tracks(env, p, lim, f, c)
    ensures Tracks(env, p + {x}, lim, f, c)
  {
    var p' := p + {x};
    KilledExtend(env, p, lim, x, c);
    forall e ensures RowKilled(env, p', lim, e) <==> RowKilled(env, p, lim, e) {
      KilledExtend(env, p, lim, x, e);
    }
    SeenColGrows(env, p, lim, x, c);
    SeenDead(env, p, x, c);
  }

  lemma SeenDead(env: Env, p: set<Cell>, x: Cell, c: Cell)
    requires !Live(env, x)
    ensures SeenRow(env, p + {x}, c) <==> SeenRow(env, p, c)
    ensures SeenCell(env, p + {x}, c) <==> SeenCell(env, p, c)
  {
    if SeenRow(env, p, c) {
      var e :| e in p && Live(env, e) && SameRow(e, c);
      assert e in p + {x};
    }
    if SeenCell(env, p, c) {
      var e :| e in p && Live(env, e) && SameCell(e, c);
      assert e in p + {x};
    }
  }

  lemma SeenExtend(env: Env, p: set<Cell>, x: Cell, c: Cell)
    requires Live(env, x)
    ensures SeenRow(env, p + {x}, c) <==> SeenRow(env, p, c) || SameRow(x, c)
    ensures SeenCell(env, p + {x}, c) <==> SeenCell(env, p, c) || SameCell(x, c)
  {
    var p' := p + {x};
    if SeenRow(env, p, c) {
      var e :| e in p && Live(env, e) && SameRow(e, c);
      assert e in p';
    }
    if SeenCell(env, p, c) {
      var e :| e in p && Live(env, e) && SameCell(e, c);
      assert e in p';
    }
    assert x in p';
  }

  /** `x` opens a row. */
  lemma TracksNewRow(env: Env, p: set<Cell>, lim: Limit, f: Front, x: Cell, c: Cell)
    requires WellFormed(x) && WellFormed(c) && After(p, x) && Before(x, c) && After(p, c) && Live(env, x)
    requires Tracks(env, p, lim, f, x) && Tracks(env, p, lim, f, c)
    requires x.row != f.key
    ensures Tracks(env, p + {x}, lim, Advance(f, x, lim), c)
  {
    var p' := p + {x};
    LeadsExtend(env, p, x, x);
    KilledExtend(env, p, lim, x, c);
    SeenExtend(env, p, x, c);
    BeforeAsym(x, c);
    if SameRow(x, c) {
      assert !RowKilled(env, p, lim, c);
      assert !ColKilled(env, p, lim, c);
      KilledExtend(env, p, lim, x, x);
      assert !RowKilled(env, p', lim, x);
      assert SeenCol(env, p', lim, c) <==> SameCol(x, c) by {
        if SameCol(x, c) { assert x in p'; }
        if SeenCol(env, p', lim, c) {
          var e :| e in p' && Live(env, e) && SameCol(e, c) && !RowKilled(env, p', lim, e);
          assert e == x || SeenRow(env, p, x);
        }
      }
      assert SeenCell(env, p, c) ==> SeenRow(env, p, x);
    } else {
      NothingOtherRow(p, x, c);
      assert !SeenRow(env, p', c);
      assert !RowKilled(env, p', lim, c) && !ColKilled(env, p', lim, c);
    }
  }

  /** `x` is deleted with its row. */
  lemma TracksRowKilled(env: Env, p: set<Cell>, lim: Limit, f: Front, x: Cell, c: Cell)
    requires WellFormed(x) && WellFormed(c) && After(p, x) && Before(x, c) && After(p, c) && Live(env, x)
    requires Tracks(env, p, lim, f, x) && Tracks(env, p, lim, f, c)
    requires x.row == f.key && f.row >= x.ts
    ensures Tracks(env, p + {x}, lim, f, c)
  {
    var p' := p + {x};
    LeadsExtend(env, p, x, x);
    KilledExtend(env, p, lim, x, c);
    SeenExtend(env, p, x, c);
    BeforeAsym(x, c);
    var m :| RowKills(env, p, lim, m, x);
    forall e ensures RowKilled(env, p', lim, e) <==> RowKilled(env, p, lim, e) {
      KilledExtend(env, p, lim, x, e);
    }
    if SameRow(x, c) {
      if !RowKilled(env, p, lim, c) {
        assert !RowKills(env, p, lim, m, c);
        assert m.ts < c.ts;
        assert !ColKills(env, p', lim, x, c);
        if SameCell(x, c) { NewestFirst(x, c); }
        SeenColSame(env, p, lim, x, c);
      }
    } else {
      NothingOtherRow(p, x, c);
      assert !SeenCol(env, p, lim, c) && !SeenCol(env, p', lim, c);
    }
  }

  lemma SeenColSame(env: Env, p: set<Cell>, lim: Limit, x: Cell, c: Cell)
    requires RowKilled(env, p, lim, x)
    requires forall e :: RowKilled(env, p + {x}, lim, e) <==> RowKilled(env, p, lim, e)
    ensures SeenCol(env, p + {x}, lim, c) <==> SeenCol(env, p, lim, c)
  {
    if SeenCol(env, p, lim, c) {
      var e :| e in p && Live(env, e) && SameCol(e, c) && !RowKilled(env, p, lim, e);
      assert e in p + {x};
    }
  }

  lemma NewColLeads(env: Env, p: set<Cell>, lim: Limit, x: Cell)
    requires WellFormed(x) && After(p, x) && Live(env, x) && x.kind.DelColumn?
    requires !RowKilled(env, p, lim, x) && !SeenCol(env, p, lim, x)
    ensures LeadCol(env, p + {x}, x)
  {
    LeadsExtend(env, p, x, x);
    BeforeAsym(x, x);
    forall e | e in p && SameCol(e, x) ensures !Live(env, e) {
      EmptyQualLeads(e, x);
      NewestFirst(e, x);
      KilledDown(env, p, lim, e, x);
    }
  }

  /** `x` is the first live, undeleted cell of its family. */
  lemma TracksNewCol(env: Env, p: set<Cell>, lim: Limit, f: Front, x: Cell, c: Cell)
    requires WellFormed(x) && WellFormed(c) && After(p, x) && Before(x, c) && After(p, c) && Live(env, x)
    requires Tracks(env, p, lim, f, x) && Tracks(env, p, lim, f, c)
    requires x.row == f.key && f.row < x.ts && x.cf != f.fam
    ensures Tracks(env, p + {x}, lim, Advance(f, x, lim), c)
  {
    var p' := p + {x};
    LeadsExtend(env, p, x, x);
    KilledExtend(env, p, lim, x, c);
    KilledExtend(env, p, lim, x, x);
    SeenExtend(env, p, x, c);
    BeforeAsym(x, c);
    forall e ensures RowKilled(env, p', lim, e) <==> RowKilled(env, p, lim, e) {
      KilledExtend(env, p, lim, x, e);
    }
    assert !SeenCol(env, p, lim, x);
    if x.kind.DelColumn? { NewColLeads(env, p, lim, x); }
    if SameCol(x, c) {
      assert x in p';
      assert SeenCol(env, p', lim, c);
      if !RowKilled(env, p, lim, c) {
        assert !AtCol(f, c);
        assert !ColKilled(env, p, lim, c);
        assert !SeenCell(env, p, c);
      }
    } else {
      NothingOtherCol(p, x, c);
      assert !SeenCol(env, p', lim, c);
      assert !SeenCell(env, p, c);
      assert !ColKilled(env, p, lim, c);
    }
  }

  /** Whatever precedes a column mark in its family shares its empty qualifier. */
  lemma EmptyQualLeads(e: Cell, m: Cell)
    requires m.qual == [] && SameCol(e, m) && Before(e, m)
    ensures SameCell(e, m)
  {
    LexAsym(e.row, e.row);
    LexAsym(e.cf, e.cf);
  }

  /** `x` is deleted with its family. */
  lemma TracksColKilled(env: Env, p: set<Cell>, lim: Limit, f: Front, x: Cell, c: Cell)
    requires WellFormed(x) && WellFormed(c) && After(p, x) && Before(x, c) && After(p, c) && Live(env, x)
    requires Tracks(env, p, lim, f, x) && Tracks(env, p, lim, f, c)
    requires x.row == f.key && f.row < x.ts && x.cf == f.fam && f.col >= x.ts
    ensures Tracks(env, p + {x}, lim, f, c)
  {
    var p' := p + {x};
    LeadsExtend(env, p, x, x);
    KilledExtend(env, p, lim, x, c);
    SeenExtend(env, p, x, c);
    BeforeAsym(x, c);
    var m :| ColKills(env, p, lim, m, x);
    forall e ensures RowKilled(env, p', lim, e) <==> RowKilled(env, p, lim, e) {
      KilledExtend(env, p, lim, x, e);
    }
    assert !LeadCol(env, p', x);
    SeenColGrows(env, p, lim, x, c);
    if SameCol(x, c) {
      if !RowKilled(env, p, lim, c) && SameCell(x, c) {
        NewestFirst(x, c);
        assert ColKills(env, p, lim, m, c);
      }
      if !RowKilled(env, p, lim, c) {
        assert SeenCol(env, p, lim, c) by { SeenColTransfer(env, p, lim, x, c); }
      }
    }
  }

  lemma SeenColTransfer(env: Env, p: set<Cell>, lim: Limit, x: Cell, c: Cell)
    requires SameCol(x, c) && SeenCol(env, p, lim, x)
    ensures SeenCol(env, p, lim, c)
  {
    var e :| e in p && Live(env, e) && SameCol(e, x) && !RowKilled(env, p, lim, e);
    assert SameCol(e, c);
  }

  lemma SeenColGrows(env: Env, p: set<Cell>, lim: Limit, x: Cell, c: Cell)
    requires forall e :: RowKilled(env, p + {x}, lim, e) <==> RowKilled(env, p, lim, e)
    ensures SeenCol(env, p, lim, c) ==> SeenCol(env, p + {x}, lim, c)
    ensures SeenCol(env, p + {x}, lim, c) ==> SeenCol(env, p, lim, c) || (SameCol(x, c) && Live(env, x))
  {
    if SeenCol(env, p, lim, c) {
      var e :| e in p && Live(env, e) && SameCol(e, c) && !RowKilled(env, p, lim, e);
      assert e in p + {x};
    }
  }

  /** `x` survives in a row and a family the stream is already in. */
  lemma TracksSameCol(env: Env, p: set<Cell>, lim: Limit, f: Front, x: Cell, c: Cell)
    requires WellFormed(x) && WellFormed(c) && After(p, x) && Before(x, c) && After(p, c) && Live(env, x)
    requires Tracks(env, p, lim, f, x) && Tracks(env, p, lim, f, c)
    requires x.row == f.key && f.row < x.ts && x.cf == f.fam && f.col < x.ts
    ensures Tracks(env, p + {x}, lim, Advance(f, x, lim), c)
  {
    var p' := p + {x};
    LeadsExtend(env, p, x, x);
    KilledExtend(env, p, lim, x, c);
    SeenExtend(env, p, x, c);
    BeforeAsym(x, c);
    forall e ensures RowKilled(env, p', lim, e) <==> RowKilled(env, p, lim, e) {
      KilledExtend(env, p, lim, x, e);
    }
    assert !LeadCol(env, p', x) by {
      var e :| e in p && Live(env, e) && SameCol(e, x) && !RowKilled(env, p, lim, e);
    }
    SeenColGrows(env, p, lim, x, c);
    if SameCol(x, c) {
      if !RowKilled(env, p, lim, c) {
        assert SeenCol(env, p, lim, c) by { SeenColTransfer(env, p, lim, x, c); }
      }
      if !SameCell(x, c) { NothingOtherCell(p, x, c); }
    } else {
      NothingOtherCol(p, x, c);
    }
  }

  /** The frontier keeps its meaning along any sorted stream. */
  lemma FeedTracks(env: Env, p: set<Cell>, lim: Limit, f: Front, x: Cell)
    requires WellFormed(x) && After(p, x) && TracksAll(env, p, lim, f)
    ensures TracksAll(env, p + {x}, lim, Feed(env, f, x, lim))
  {
    forall c | WellFormed(c) && After(p + {x}, c)
      ensures Tracks(env, p + {x}, lim, Feed(env, f, x, lim), c)
    {
      assert After(p, c) && Before(x, c);
      assert Tracks(env, p, lim, f, x) && Tracks(env, p, lim, f, c);
      if !Live(env, x) {
        TracksDead(env, p, lim, f, x, c);
      } else if x.row != f.key {
        TracksNewRow(env, p, lim, f, x, c);
      } else if f.row >= x.ts {
        TracksRowKilled(env, p, lim, f, x, c);
      } else if x.cf != f.fam {
        TracksNewCol(env, p, lim, f, x, c);
      } else if f.col >= x.ts {
        TracksColKilled(env, p, lim, f, x, c);
      } else {
        TracksSameCol(env, p, lim, f, x, c);
      }
    }
  }
}

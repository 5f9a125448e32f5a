/** What a scan over a range of rows delivers, cell for cell: the cells that the strategy
    keeps, which are the visible ones, within the version and qualifier limits. */
module ScanSemantics {
  import opened Bytes
  import opened Cells
  import opened Frontier
  import opened Strategy
  import opened Visibility
  import opened ReadSemantics
  import opened PartialRead
  import opened TabletScan
  import opened ScanLimits

  /** A scan of a history without atomic operations, from a row boundary on. */
  ghost predicate PlainHistory(s: Scan, from: nat) {
    && Sorted(s.cells) && History(Elems(s.cells)) && from <= |s.cells|
    && (forall i, j :: 0 <= i < from <= j < |s.cells| ==> s.cells[i].row != s.cells[j].row)
  }

  /** Such a scan whose start key is the start of its range. */
  ghost predicate Plain(s: Scan, from: nat) {
    && PlainHistory(s, from)
    && (forall j :: from <= j < |s.cells| && s.cells[j].kind.Value? ==> !Before(s.cells[j], s.start))
  }

  /** The cells of its row that the strategy gets to see before `c`. */
  ghost function FedAbove(s: Scan, c: Cell): set<Cell> {
    set e | e in Elems(s.cells) && SameRow(e, c) && Before(e, c) && !Skipped(s, e)
  }

  /** The cells of the families asked for that the strategy keeps. */
  ghost function Candidates(s: Scan): set<Cell> {
    set c | c in Elems(s.cells) && Kept(s.env, FedAbove(s, c), c) && !Skipped(s, c)
  }

  ghost function VersionsIn(seen: set<Cell>, c: Cell): set<Cell> {
    set v | v in seen && SameCell(v, c)
  }

  ghost function QualsIn(seen: set<Cell>, c: Cell): set<Bytes> {
    set v | v in seen && SameCol(v, c) :: v.qual
  }

  /** The part of `cands` down to `c`. */
  ghost function DownTo(cands: set<Cell>, c: Cell): set<Cell> {
    set v | v in cands && (v == c || Before(v, c))
  }

  /** The qualifiers of `c`'s family that begin before the start key. */
  ghost function Begun(s: Scan, seen: set<Cell>, c: Cell): set<Bytes> {
    QualsIn((set v | v in seen && Before(v, s.start)), c)
  }

  /** The qualifier limit, where `quals` are the qualifiers of the family down to `qual` and
      `begun` those that begin before the start key. In a family with such a one the count goes
      on from `quNum`, without them, and the column that the start key cuts is not held to it. */
  ghost predicate QualRoom(s: Scan, quNum: nat, quals: set<Bytes>, begun: set<Bytes>, qual: Bytes) {
    if begun == {} then |quals| <= AtLeastOne(s.opts.maxQualifiers)
    else qual in begun || quNum + |quals - begun| <= s.opts.maxQualifiers
  }

  /** What a scan asks for, apart from the filters on the row buffer: the candidates of its
      range, within the limits. The versions before the start key count as versions. */
  ghost predicate ScanWants(s: Scan, quNum: nat, cands: set<Cell>, c: Cell) {
    && c in cands && !Before(c, s.start) && (s.end == [] || LexLt(c.row, s.end))
    && |VersionsIn(DownTo(cands, c), c)| <= AtLeastOne(s.opts.maxVersions)
    && QualRoom(s, quNum, QualsIn(DownTo(cands, c), c), Begun(s, DownTo(cands, c), c), c.qual)
  }

  /** Where no candidate comes before the start key, both limits are plain ranks. */
  lemma WantsPlain(s: Scan, from: nat, quNum: nat, cands: set<Cell>, c: Cell)
    requires Plain(s, from) && c in s.cells[from..] && forall v :: v in cands ==> v in Elems(s.cells) && v.kind.Value?
    ensures ScanWants(s, quNum, cands, c) <==>
              && c in cands && (s.end == [] || LexLt(c.row, s.end))
              && |VersionsIn(DownTo(cands, c), c)| <= AtLeastOne(s.opts.maxVersions)
              && |QualsIn(DownTo(cands, c), c)| <= AtLeastOne(s.opts.maxQualifiers)
  {
    var k :| 0 <= k < |s.cells[from..]| && s.cells[from..][k] == c;
    assert s.cells[from + k] == c;
    forall v | v in cands && SameRow(v, c) ensures !Before(v, s.start) {
      var i :| 0 <= i < |s.cells| && s.cells[i] == v;
      assert from <= i;
    }
    assert Begun(s, DownTo(cands, c), c) == {};
  }

  // ---------- the counters ----------

  predicate InFamily(x: Cursor, c: Cell) {
    x.lastKey == c.row && x.lastCol == c.cf
  }

  /** The qualifier count in a family that begins at or after the start key. */
  ghost predicate OwnCount(limit: nat, quals: set<Bytes>, x: Cursor, c: Cell) {
    && (InFamily(x, c) ==> x.quNum >= 1)
    && (InFamily(x, c) && x.quNum <= limit ==> x.quNum == |quals|)
    && (InFamily(x, c) && x.quNum > limit ==> |quals| > limit)
    && (SameColumn(x, c) ==> x.quNum <= limit)
    && (!SameColumn(x, c) && InFamily(x, c) && x.quNum <= limit ==> c.qual !in quals)
  }

  /** The qualifier count in a family that begins before the start key. */
  ghost predicate CutCount(limit: nat, quNum: nat, quals: set<Bytes>, begun: set<Bytes>, x: Cursor, c: Cell) {
    && (x.quNum <= limit ==> x.quNum == quNum + |quals - begun|)
    && (x.quNum > limit ==> quNum + |quals - begun| > limit)
    && (SameColumn(x, c) && c.qual !in begun ==> x.quNum <= limit)
    && (!SameColumn(x, c) && x.quNum <= limit ==> c.qual !in quals)
  }

  /** What the counters say about a cell `c` to come; `seen` are the candidates passed. */
  ghost predicate CountsFor(s: Scan, quNum: nat, seen: set<Cell>, x: Cursor, c: Cell) {
    var v, q, begun, limit := VersionsIn(seen, c), QualsIn(seen, c), Begun(s, seen, c), s.opts.maxQualifiers;
    && (InFamily(x, c) <==> q != {})
    && (SameColumn(x, c) ==> v != {} && x.versionNum == |v|)
    && (c.qual in begun ==> SameColumn(x, c))
    && if begun == {} then OwnCount(AtLeastOne(limit), q, x, c) else CutCount(limit, quNum, q, begun, x, c)
  }

  ghost predicate AllCounts(s: Scan, quNum: nat, seen: set<Cell>, x: Cursor) {
    && (forall c: Cell :: c.row != [] && After(seen, c) ==> CountsFor(s, quNum, seen, x, c))
    && ((forall v :: v in seen ==> Before(v, s.start)) ==> x.quNum == quNum)
  }

  lemma ColumnInQuals(seen: set<Cell>, c: Cell)
    ensures VersionsIn(seen, c) != {} <==> c.qual in QualsIn(seen, c)
  {
    if VersionsIn(seen, c) != {} {
      var v :| v in VersionsIn(seen, c);
      assert v in seen && SameCol(v, c);
    }
    if c.qual in QualsIn(seen, c) {
      var v :| v in seen && SameCol(v, c) && v.qual == c.qual;
      assert v in VersionsIn(seen, c);
    }
  }

  /** Both limits, for the candidate `c` after the candidates `seen`. */
  ghost predicate Within(s: Scan, quNum: nat, seen: set<Cell>, c: Cell) {
    && |VersionsIn(seen, c) + {c}| <= AtLeastOne(s.opts.maxVersions)
    && QualRoom(s, quNum, QualsIn(seen, c) + {c.qual}, Begun(s, seen, c), c.qual)
  }

  lemma OwnRoom(s: Scan, q: set<Bytes>, v: set<Cell>, x: Cursor, c: Cell)
    requires OwnCount(AtLeastOne(s.opts.maxQualifiers), q, x, c) && (InFamily(x, c) <==> q != {})
    requires c !in v && (SameColumn(x, c) ==> v != {} && x.versionNum == |v|) && (v != {} <==> c.qual in q)
    ensures HasRoom(s, x, c) <==>
              |v + {c}| <= AtLeastOne(s.opts.maxVersions) && |q + {c.qual}| <= AtLeastOne(s.opts.maxQualifiers)
  {
    assert |v + {c}| == |v| + 1;
    AddQual(q, {}, c.qual);
  }

  lemma CutRoom(s: Scan, quNum: nat, q: set<Bytes>, begun: set<Bytes>, v: set<Cell>, x: Cursor, c: Cell)
    requires CutCount(s.opts.maxQualifiers, quNum, q, begun, x, c) && InFamily(x, c) && begun <= q
    requires c !in v && (SameColumn(x, c) ==> v != {} && x.versionNum == |v|) && (v != {} <==> c.qual in q)
    requires c.qual in begun ==> SameColumn(x, c)
    ensures HasRoom(s, x, c) <==>
              && |v + {c}| <= AtLeastOne(s.opts.maxVersions)
              && (c.qual in begun || quNum + |q + {c.qual} - begun| <= s.opts.maxQualifiers)
  {
    assert |v + {c}| == |v| + 1;
    AddQual(q, begun, c.qual);
  }

  /** There is room for `c` exactly when it is within both limits. */
  lemma RoomIsRank(s: Scan, quNum: nat, seen: set<Cell>, x: Cursor, c: Cell)
    requires CountsFor(s, quNum, seen, x, c) && c !in seen
    ensures HasRoom(s, x, c) <==> Within(s, quNum, seen, c)
  {
    var v, q, begun := VersionsIn(seen, c), QualsIn(seen, c), Begun(s, seen, c);
    ColumnInQuals(seen, c);
    if begun == {} {
      OwnRoom(s, q, v, x, c);
    } else {
      BegunInQuals(s, seen, c);
      CutRoom(s, quNum, q, begun, v, x, c);
    }
  }

  lemma BegunInQuals(s: Scan, seen: set<Cell>, c: Cell)
    ensures Begun(s, seen, c) <= QualsIn(seen, c)
  {
  }

  lemma AddQual(q: set<Bytes>, begun: set<Bytes>, x: Bytes)
    ensures |q + {x}| == |q| + if x in q then 0 else 1
    ensures |(q + {x}) - begun| == |q - begun| + if x in q || x in begun then 0 else 1
  {
    if x in q {
      assert q + {x} == q;
    } else if x in begun {
      assert (q + {x}) - begun == q - begun;
    } else {
      assert (q + {x}) - begun == (q - begun) + {x};
    }
  }

  /** The cursor after the candidate `e`. */
  ghost predicate Moves(s: Scan, x: Cursor, e: Cell, x': Cursor) {
    if !Before(e, s.start) && !HasRoom(s, x, e) && !SameColumn(x, e) then
      x'.lastKey == x.lastKey && x'.lastCol == x.lastCol && x'.lastQual == x.lastQual &&
      x'.versionNum == x.versionNum && x'.quNum == x.quNum + 1
    else SameColumn(x', e) &&
         x'.versionNum == (if SameColumn(x, e) then x.versionNum + 1 else 1) &&
         x'.quNum == (if Before(e, s.start) || SameColumn(x, e) then x.quNum
                      else if InFamily(x, e) then x.quNum + 1 else 1)
  }

  lemma SeenNext(seen: set<Cell>, e: Cell, c: Cell)
    requires After(seen, e) && Before(e, c)
    ensures SameCell(e, c) ==> VersionsIn(seen + {e}, c) == VersionsIn(seen, e) + {e}
    ensures !SameCell(e, c) ==> VersionsIn(seen + {e}, c) == {}
    ensures SameCol(e, c) ==> QualsIn(seen + {e}, c) == QualsIn(seen, e) + {e.qual}
    ensures !SameCol(e, c) ==> QualsIn(seen + {e}, c) == {}
  {
    forall v | v in seen + {e}
      ensures SameCell(v, c) ==> SameCell(e, c)
      ensures SameCol(v, c) ==> SameCol(e, c)
    {
      if v in seen { Grouping(v, e, c); }
    }
    if SameCol(e, c) {
      forall q ensures q in QualsIn(seen + {e}, c) <==> q in QualsIn(seen, e) + {e.qual} {
        if q in QualsIn(seen, e) {
          var v :| v in seen && SameCol(v, e) && v.qual == q;
          assert v in seen + {e};
        }
        assert e in seen + {e};
      }
    }
  }

  /** Past a cell of the family with another qualifier, that qualifier does not come back. */
  lemma QualNext(seen: set<Cell>, e: Cell, c: Cell)
    requires After(seen, e) && Before(e, c) && SameCol(e, c) && !SameCell(e, c)
    ensures c.qual !in QualsIn(seen + {e}, c)
  {
    SeenNext(seen, e, c);
    ColumnInQuals(seen + {e}, c);
  }

  /** The sizes after the candidate `e`, in its own family. */
  lemma SizesNext(seen: set<Cell>, e: Cell)
    requires After(seen, e)
    ensures |VersionsIn(seen, e) + {e}| == |VersionsIn(seen, e)| + 1
    ensures |QualsIn(seen, e) + {e.qual}| == |QualsIn(seen, e)| + if VersionsIn(seen, e) == {} then 1 else 0
  {
    ColumnInQuals(seen, e);
    assert e !in seen by { BeforeAsym(e, e); }
    var q := QualsIn(seen, e);
    if e.qual in q { assert q + {e.qual} == q; }
  }

  /** Past the start key, what began before it stays. */
  lemma BegunNext(s: Scan, seen: set<Cell>, e: Cell, c: Cell)
    requires After(seen, e) && Before(e, c)
    ensures Before(e, s.start) ==> Begun(s, seen + {e}, c) == QualsIn(seen + {e}, c)
    ensures !Before(e, s.start) && SameCol(e, c) ==> Begun(s, seen + {e}, c) == Begun(s, seen, e)
    ensures !SameCol(e, c) ==> Begun(s, seen + {e}, c) == {}
  {
    var b := set v | v in seen && Before(v, s.start);
    var b' := set v | v in seen + {e} && Before(v, s.start);
    if Before(e, s.start) {
      forall v | v in seen + {e} ensures v in b' {
        if v in seen { BeforeTrans(v, e, s.start); }
      }
      assert b' == seen + {e};
    } else {
      assert b' == b;
    }
    SeenNext(seen, e, c);
    BegunInQuals(s, seen + {e}, c);
  }

  /** A candidate before the start key. */
  lemma CountsPassed(s: Scan, quNum: nat, seen: set<Cell>, x: Cursor, e: Cell, x': Cursor, c: Cell)
    requires e.row != [] && After(seen, e) && Before(e, c) && Before(e, s.start)
    requires CountsFor(s, quNum, seen, x, e) && Moves(s, x, e, x') && x.quNum == quNum
    ensures CountsFor(s, quNum, seen + {e}, x', c)
  {
    SeenNext(seen, e, c);
    BegunNext(s, seen, e, c);
    if SameCol(e, c) {
      SizesNext(seen, e);
      if !SameCell(e, c) { QualNext(seen, e, c); }
      ColumnInQuals(seen, e);
      var q := QualsIn(seen + {e}, c);
      assert q - q == {};
    }
  }

  lemma OwnNext(s: Scan, q: set<Bytes>, x: Cursor, e: Cell, x': Cursor, c: Cell)
    requires OwnCount(AtLeastOne(s.opts.maxQualifiers), q, x, e) && (InFamily(x, e) <==> q != {})
    requires !Before(e, s.start) && Moves(s, x, e, x') && SameCol(e, c)
    requires (SameColumn(x, e) ==> e.qual in q) && (SameColumn(x, c) ==> c.qual in q)
    requires !SameCell(e, c) ==> c.qual !in q + {e.qual}
    ensures OwnCount(AtLeastOne(s.opts.maxQualifiers), q + {e.qual}, x', c) && InFamily(x', c)
    ensures SameColumn(x', c) ==>
              SameCell(e, c) && (if e.qual in q then SameColumn(x, e) && x'.versionNum == x.versionNum + 1
                                 else x'.versionNum == 1)
  {
    AddQual(q, {}, e.qual);
  }

  /** A candidate of a family that begins at or after the start key. */
  lemma CountsOwn(s: Scan, quNum: nat, seen: set<Cell>, x: Cursor, e: Cell, x': Cursor, c: Cell)
    requires e.row != [] && After(seen, e) && Before(e, c) && !Before(e, s.start) && SameCol(e, c)
    requires Begun(s, seen, e) == {} && CountsFor(s, quNum, seen, x, e) && Moves(s, x, e, x')
    requires SameColumn(x, c) ==> CountsFor(s, quNum, seen, x, c)
    ensures CountsFor(s, quNum, seen + {e}, x', c)
  {
    BesideNext(seen, e, c);
    BegunNext(s, seen, e, c);
    ColumnInQuals(seen, c);
    OwnNext(s, QualsIn(seen, e), x, e, x', c);
  }

  /** What the candidate `e` adds in its own family. */
  lemma BesideNext(seen: set<Cell>, e: Cell, c: Cell)
    requires After(seen, e) && Before(e, c) && SameCol(e, c)
    ensures QualsIn(seen + {e}, c) == QualsIn(seen, e) + {e.qual} && QualsIn(seen, e) == QualsIn(seen, c)
    ensures SameCell(e, c) ==>
              VersionsIn(seen + {e}, c) != {} && |VersionsIn(seen + {e}, c)| == |VersionsIn(seen, e)| + 1
    ensures !SameCell(e, c) ==> c.qual !in QualsIn(seen, e) + {e.qual}
    ensures e.qual in QualsIn(seen, e) <==> VersionsIn(seen, e) != {}
  {
    SeenNext(seen, e, c);
    SizesNext(seen, e);
    if !SameCell(e, c) { QualNext(seen, e, c); }
    ColumnInQuals(seen, e);
  }

  lemma CutNext(s: Scan, quNum: nat, q: set<Bytes>, begun: set<Bytes>, x: Cursor, e: Cell, x': Cursor, c: Cell)
    requires CutCount(s.opts.maxQualifiers, quNum, q, begun, x, e) && InFamily(x, e) && begun <= q
    requires !Before(e, s.start) && Moves(s, x, e, x') && SameCol(e, c)
    requires (SameColumn(x, e) ==> e.qual in q) && (SameColumn(x, c) ==> c.qual in q)
    requires !SameCell(e, c) ==> c.qual !in q + {e.qual}
    requires e.qual in begun ==> SameColumn(x, e)
    ensures CutCount(s.opts.maxQualifiers, quNum, q + {e.qual}, begun, x', c) && InFamily(x', c)
    ensures c.qual in begun ==> SameColumn(x', c)
    ensures SameColumn(x', c) ==>
              SameCell(e, c) && (if e.qual in q then SameColumn(x, e) && x'.versionNum == x.versionNum + 1
                                 else x'.versionNum == 1)
  {
    AddQual(q, begun, e.qual);
  }

  /** A candidate of a family that begins before the start key. */
  lemma CountsCut(s: Scan, quNum: nat, seen: set<Cell>, x: Cursor, e: Cell, x': Cursor, c: Cell)
    requires e.row != [] && After(seen, e) && Before(e, c) && !Before(e, s.start) && SameCol(e, c)
    requires Begun(s, seen, e) != {} && CountsFor(s, quNum, seen, x, e) && Moves(s, x, e, x')
    requires SameColumn(x, c) ==> CountsFor(s, quNum, seen, x, c)
    ensures CountsFor(s, quNum, seen + {e}, x', c)
  {
    BesideNext(seen, e, c);
    BegunNext(s, seen, e, c);
    BegunInQuals(s, seen, e);
    ColumnInQuals(seen, c);
    CutNext(s, quNum, QualsIn(seen, e), Begun(s, seen, e), x, e, x', c);
  }

  lemma CountsNext(s: Scan, quNum: nat, seen: set<Cell>, x: Cursor, e: Cell, x': Cursor, c: Cell)
    requires e.row != [] && After(seen, e) && Before(e, c)
    requires CountsFor(s, quNum, seen, x, e) && Moves(s, x, e, x')
    requires SameColumn(x, c) ==> CountsFor(s, quNum, seen, x, c)
    requires Before(e, s.start) ==> x.quNum == quNum
    ensures CountsFor(s, quNum, seen + {e}, x', c)
  {
    if Before(e, s.start) {
      CountsPassed(s, quNum, seen, x, e, x', c);
    } else if !SameCol(e, c) {
      SeenNext(seen, e, c);
      BegunNext(s, seen, e, c);
    } else if Begun(s, seen, e) == {} {
      CountsOwn(s, quNum, seen, x, e, x', c);
    } else {
      CountsCut(s, quNum, seen, x, e, x', c);
    }
  }

  lemma AllCountsNext(s: Scan, quNum: nat, seen: set<Cell>, x: Cursor, e: Cell, x': Cursor)
    requires e.row != [] && After(seen, e) && AllCounts(s, quNum, seen, x) && Moves(s, x, e, x')
    ensures AllCounts(s, quNum, seen + {e}, x')
  {
    if Before(e, s.start) {
      forall v | v in seen ensures Before(v, s.start) { BeforeTrans(v, e, s.start); }
    }
    forall c: Cell | c.row != [] && After(seen + {e}, c) ensures CountsFor(s, quNum, seen + {e}, x', c) {
      assert e in seen + {e};
      CountsNext(s, quNum, seen, x, e, x', c);
    }
    assert e in seen + {e};
  }

  // ---------- the loop ----------

  /** The cells the loop has looked at, and those it has fed to the strategy. */
  ghost function Passed(s: Scan, from: nat, pos: nat): set<Cell>
    requires from <= pos <= |s.cells|
  {
    Elems(s.cells[from..pos])
  }

  ghost function FedCells(s: Scan, from: nat, pos: nat): set<Cell>
    requires from <= pos <= |s.cells|
  {
    set c | c in Passed(s, from, pos) && !Skipped(s, c)
  }

  lemma PassedNext(s: Scan, from: nat, pos: nat)
    requires Sorted(s.cells) && from <= pos < |s.cells|
    ensures Passed(s, from, pos + 1) == Passed(s, from, pos) + {s.cells[pos]}
    ensures After(Passed(s, from, pos), s.cells[pos])
  {
    assert s.cells[from..pos + 1] == s.cells[from..pos] + [s.cells[pos]];
    forall e | e in Passed(s, from, pos) ensures Before(e, s.cells[pos]) {
      var i :| 0 <= i < pos - from && s.cells[from..pos][i] == e;
      assert s.cells[from + i] == e;
    }
  }

  lemma PassedIsAbove(s: Scan, from: nat, pos: nat, e: Cell)
    requires PlainHistory(s, from) && from <= pos < |s.cells| && e in s.cells
    requires SameRow(e, s.cells[pos]) && Before(e, s.cells[pos])
    ensures e in Passed(s, from, pos)
  {
    var i :| 0 <= i < |s.cells| && s.cells[i] == e;
    assert i < pos by {
      BeforeAsym(e, s.cells[pos]);
    }
    assert s.cells[from..pos][i - from] == e;
  }

  /** Only the cells of its row decide about a cell. */
  lemma KeptInRow(env: Env, p: set<Cell>, q: set<Cell>, c: Cell)
    requires forall e :: SameRow(e, c) ==> (e in p <==> e in q)
    requires Kept(env, p, c)
    ensures Kept(env, q, c)
  {
    if RowKilled(env, q, NoLimit, c) {
      var m :| RowKills(env, q, NoLimit, m, c);
      assert RowKills(env, p, NoLimit, m, c);
    }
    if ColKilled(env, q, NoLimit, c) {
      var m :| ColKills(env, q, NoLimit, m, c);
      assert ColKills(env, p, NoLimit, m, c);
    }
    if NextIsDeleted(env, q, c) {
      var d :| LastDelQualifier(env, q, d, c);
      assert LastDelQualifier(env, p, d, c);
    }
    CountedInRow(env, p, q, c);
  }

  lemma CountedInRow(env: Env, p: set<Cell>, q: set<Cell>, c: Cell)
    requires forall e :: SameRow(e, c) ==> (e in p <==> e in q)
    ensures CountedPuts(env, p + {c}, c) == CountedPuts(env, q + {c}, c)
  {
    forall v | SameCell(v, c) ensures Uncounted(p + {c}, v) <==> Uncounted(q + {c}, v) {
      assert forall e :: SameCell(e, v) ==> (e in p + {c} <==> e in q + {c});
    }
  }

  /** The strategy's verdict on a cell of an asked family. */
  lemma VerdictIsCandidate(s: Scan, from: nat, pos: nat, st: State)
    requires PlainHistory(s, from) && from <= pos < |s.cells| && !Skipped(s, s.cells[pos])
    requires ScanInv(s.env, FedCells(s, from, pos), st)
    ensures ScanStep(s.env, st, s.cells[pos]).1 <==> s.cells[pos] !in Candidates(s)
    ensures ScanInv(s.env, FedCells(s, from, pos + 1), ScanStep(s.env, st, s.cells[pos]).0)
  {
    var x, p, q := s.cells[pos], FedCells(s, from, pos), FedAbove(s, s.cells[pos]);
    PassedNext(s, from, pos);
    assert FedCells(s, from, pos + 1) == p + {x};
    assert x in Elems(s.cells) && p <= Elems(s.cells);
    ScanStepInv(s.env, p, st, x);
    ScanStepVerdict(s.env, p, st, x);
    forall e | SameRow(e, x) ensures e in p <==> e in q {
      if e in q { PassedIsAbove(s, from, pos, e); }
    }
    if Kept(s.env, p, x) { KeptInRow(s.env, p, q, x); }
    if Kept(s.env, q, x) { KeptInRow(s.env, q, p, x); }
  }

  /** What the strategy sees of a row is enough to judge a cell of an asked family. */
  lemma FedSuffices(s: Scan, x: Cell)
    requires x in Elems(s.cells) && !Skipped(s, x) && x.kind.Value? && AllWellFormed(Elems(s.cells))
    requires Distinct(Elems(s.cells))
    ensures Suffices(Elems(s.cells), FedAbove(s, x), x)
  {
    var h, p := Elems(s.cells), FedAbove(s, x);
    forall m | m in h && m.kind.Del? && SameRow(m, x) && Opens(h, m) ensures m in p {
      assert !Before(x, m);
    }
    forall m | m in h && m.kind.DelColumn? && SameCol(m, x) && OpensCol(h, m) ensures m in p {
      assert !Before(x, m);
    }
  }

  /** Where row and family marks come first, the strategy keeps exactly the visible cells,
      whatever families the scan leaves out. */
  lemma CandidatesVisible(s: Scan)
    requires History(Elems(s.cells)) && MarksFirst(Elems(s.cells))
    ensures Candidates(s) == set c | c in Elems(s.cells) && Visible(s.env, Elems(s.cells), c) && !Skipped(s, c)
  {
    forall c | c in Elems(s.cells) && c.kind.Value? && !Skipped(s, c)
      ensures Kept(s.env, FedAbove(s, c), c) <==> Visible(s.env, Elems(s.cells), c)
    {
      FedSuffices(s, c);
      PartDecides(s.env, Elems(s.cells), FedAbove(s, c), c);
    }
  }

  lemma StepSkips(s: Scan, st: State, x: Cursor)
    requires x.pos < |s.cells| && Skipped(s, s.cells[x.pos])
    ensures Step(s, st, x) == (st, x.(pos := x.pos + 1), [])
  {
  }

  /** What a turn hands out for a candidate. */
  ghost function Turned(s: Scan, x: Cursor, c: Cell): seq<Hit> {
    if !Before(c, s.start) && HasRoom(s, x, c) then [Hit(x.pos, c.value)] else []
  }

  lemma StepPlain(s: Scan, st: State, x: Cursor)
    requires x.pos < |s.cells| && !Skipped(s, s.cells[x.pos]) && !s.cells[x.pos].kind.IsAtomic()
    ensures var c, step, (st', dropped) := s.cells[x.pos], Step(s, st, x), ScanStep(s.env, st, s.cells[x.pos]);
            && step.0 == st' && step.1.pos == x.pos + 1
            && (dropped ==> step.1 == x.(pos := x.pos + 1) && step.2 == [])
            && (!dropped ==> Moves(s, x, c, step.1) && step.2 == Turned(s, x, c))
  {
  }

  ghost predicate LoopInv(s: Scan, quNum: nat, from: nat, cands: set<Cell>, seen: set<Cell>, st: State, x: Cursor) {
    && from <= x.pos <= |s.cells| && seen == Seen(s, from, x.pos, cands)
    && ScanInv(s.env, FedCells(s, from, x.pos), st)
    && AllCounts(s, quNum, seen, x)
  }

  lemma LoopStarts(s: Scan, from: nat, quNum: nat, cands: set<Cell>)
    requires PlainHistory(s, from)
    ensures LoopInv(s, quNum, from, cands, {}, Fresh, NewCursor(from, quNum))
  {
    FreshInv(s.env);
    assert FedCells(s, from, from) == {};
    assert Seen(s, from, from, cands) == {};
  }

  lemma SameQuals(a: set<Cell>, b: set<Cell>, c: Cell)
    requires forall e :: SameCol(e, c) ==> (e in a <==> e in b)
    ensures QualsIn(a, c) == QualsIn(b, c) && VersionsIn(a, c) == VersionsIn(b, c)
  {
    forall q ensures q in QualsIn(a, c) <==> q in QualsIn(b, c) {
      if q in QualsIn(a, c) {
        var v :| v in a && SameCol(v, c) && v.qual == q;
        assert v in b;
      }
      if q in QualsIn(b, c) {
        var v :| v in b && SameCol(v, c) && v.qual == q;
        assert v in a;
      }
    }
  }

  lemma AddSelf(seen: set<Cell>, c: Cell)
    ensures VersionsIn(seen + {c}, c) == VersionsIn(seen, c) + {c}
    ensures QualsIn(seen + {c}, c) == QualsIn(seen, c) + {c.qual}
  {
    forall q ensures q in QualsIn(seen + {c}, c) <==> q in QualsIn(seen, c) + {c.qual} {
      if q in QualsIn(seen, c) {
        var v :| v in seen && SameCol(v, c) && v.qual == q;
        assert v in seen + {c};
      }
      assert c in seen + {c};
    }
  }

  /** The candidates down to the cell at `pos`, seen from its own row. */
  lemma RankIsSeen(s: Scan, from: nat, pos: nat, cands: set<Cell>)
    requires PlainHistory(s, from) && from <= pos < |s.cells| && cands <= Elems(s.cells) && s.cells[pos] in cands
    ensures var c, seen := s.cells[pos], Seen(s, from, pos, cands);
            && VersionsIn(DownTo(cands, c), c) == VersionsIn(seen, c) + {c}
            && QualsIn(DownTo(cands, c), c) == QualsIn(seen, c) + {c.qual}
            && (!Before(c, s.start) ==> Begun(s, DownTo(cands, c), c) == Begun(s, seen, c))
  {
    var c, seen, d := s.cells[pos], Seen(s, from, pos, cands), DownTo(cands, s.cells[pos]);
    PassedNext(s, from, pos);
    forall e | SameRow(e, c) ensures e in d <==> e in seen + {c} {
      if e in d && e != c { PassedIsAbove(s, from, pos, e); }
    }
    SameQuals(d, seen + {c}, c);
    AddSelf(seen, c);
    if !Before(c, s.start) {
      SameQuals((set v | v in d && Before(v, s.start)), (set v | v in seen && Before(v, s.start)), c);
    }
  }

  lemma WantsWithin(s: Scan, quNum: nat, from: nat, pos: nat, cands: set<Cell>, seen: set<Cell>)
    requires PlainHistory(s, from) && from <= pos < |s.cells| && cands <= Elems(s.cells) && !Finished(s, pos)
    requires seen == Seen(s, from, pos, cands)
    ensures var c := s.cells[pos];
            ScanWants(s, quNum, cands, c) <==> c in cands && !Before(c, s.start) && Within(s, quNum, seen, c)
  {
    if s.cells[pos] in cands { RankIsSeen(s, from, pos, cands); }
  }

  /** A turn keeps the counters and has room for a candidate exactly when it is wanted. */
  lemma TurnRoom(s: Scan, quNum: nat, from: nat, x: Cursor, cands: set<Cell>, x': Cursor, c: Cell, isCand: bool,
                 seen: set<Cell>, seen': set<Cell>)
    requires Sorted(s.cells) && from <= x.pos < |s.cells| && c == s.cells[x.pos] && c.row != []
    requires seen == Seen(s, from, x.pos, cands) && seen' == Seen(s, from, x.pos + 1, cands)
    requires AllCounts(s, quNum, seen, x) && (isCand <==> c in cands)
    requires !isCand ==> x' == x.(pos := x.pos + 1)
    requires isCand ==> Moves(s, x, c, x')
    ensures AllCounts(s, quNum, seen', x')
    ensures HasRoom(s, x, c) <==> Within(s, quNum, seen, c)
  {
    SeenAfter(s, from, x.pos, cands);
    TurnCounts(s, quNum, x, x', c, seen, isCand);
  }

  /** One turn keeps the invariant and accepts the cell exactly when it is wanted. */
  lemma Turn(s: Scan, quNum: nat, from: nat, cands: set<Cell>, seen: set<Cell>, st: State, x: Cursor)
    returns (seen': set<Cell>, st': State, x': Cursor, hits: seq<Hit>)
    requires PlainHistory(s, from) && LoopInv(s, quNum, from, cands, seen, st, x) && !Finished(s, x.pos)
    requires cands == Candidates(s)
    ensures (st', x', hits) == Step(s, st, x)
    ensures LoopInv(s, quNum, from, cands, seen', st', x') && x'.pos == x.pos + 1
    ensures hits == if ScanWants(s, quNum, cands, s.cells[x.pos]) then [Hit(x.pos, s.cells[x.pos].value)] else []
  {
    seen' := Seen(s, from, x.pos + 1, cands);
    var step := Step(s, st, x);
    st', x', hits := step.0, step.1, step.2;
    if Skipped(s, s.cells[x.pos]) {
      TurnSkips(s, from, cands, st, x);
    } else {
      TurnFed(s, from, cands, st, x);
    }
    assert s.cells[x.pos] in Elems(s.cells);
    TurnCounted(s, quNum, from, cands, seen, st', x, x', hits, seen');
    WantsWithin(s, quNum, from, x.pos, cands, seen);
  }

  lemma TurnCounted(s: Scan, quNum: nat, from: nat, cands: set<Cell>, seen: set<Cell>, st': State, x: Cursor,
                    x': Cursor, hits: seq<Hit>, seen': set<Cell>)
    requires TurnsTo(s, from, cands, x, st', x', hits) && Sorted(s.cells) && s.cells[x.pos].row != []
    requires seen == Seen(s, from, x.pos, cands) && seen' == Seen(s, from, x.pos + 1, cands)
    requires AllCounts(s, quNum, seen, x)
    ensures LoopInv(s, quNum, from, cands, seen', st', x')
    ensures var c := s.cells[x.pos];
            hits == if c in cands && !Before(c, s.start) && Within(s, quNum, seen, c) then [Hit(x.pos, c.value)] else []
  {
    TurnRoom(s, quNum, from, x, cands, x', s.cells[x.pos], s.cells[x.pos] in cands, seen, seen');
  }

  /** What a turn does to the strategy and the cursor. */
  ghost predicate TurnsTo(s: Scan, from: nat, cands: set<Cell>, x: Cursor, st': State, x': Cursor, hits: seq<Hit>) {
    && from <= x.pos < |s.cells| && x'.pos == x.pos + 1 && ScanInv(s.env, FedCells(s, from, x.pos + 1), st')
    && (s.cells[x.pos] !in cands ==> x' == x.(pos := x.pos + 1) && hits == [])
    && (s.cells[x.pos] in cands ==> Moves(s, x, s.cells[x.pos], x') && hits == Turned(s, x, s.cells[x.pos]))
  }

  lemma TurnSkips(s: Scan, from: nat, cands: set<Cell>, st: State, x: Cursor)
    requires Sorted(s.cells) && from <= x.pos < |s.cells| && ScanInv(s.env, FedCells(s, from, x.pos), st)
    requires s.cells[x.pos] !in cands && Skipped(s, s.cells[x.pos])
    ensures TurnsTo(s, from, cands, x, Step(s, st, x).0, Step(s, st, x).1, Step(s, st, x).2)
  {
    StepSkips(s, st, x);
    FedSkips(s, from, x.pos);
  }

  lemma TurnFed(s: Scan, from: nat, cands: set<Cell>, st: State, x: Cursor)
    requires PlainHistory(s, from) && from <= x.pos < |s.cells| && ScanInv(s.env, FedCells(s, from, x.pos), st)
    requires cands == Candidates(s) && !Skipped(s, s.cells[x.pos])
    ensures TurnsTo(s, from, cands, x, Step(s, st, x).0, Step(s, st, x).1, Step(s, st, x).2)
  {
    VerdictIsCandidate(s, from, x.pos, st);
    assert s.cells[x.pos] in Elems(s.cells);
    StepPlain(s, st, x);
  }

  /** The candidates among the cells passed. */
  ghost function Seen(s: Scan, from: nat, pos: nat, cands: set<Cell>): set<Cell>
    requires from <= pos <= |s.cells|
  {
    Passed(s, from, pos) * cands
  }

  lemma SeenAfter(s: Scan, from: nat, pos: nat, cands: set<Cell>)
    requires Sorted(s.cells) && from <= pos < |s.cells|
    ensures var c, seen := s.cells[pos], Seen(s, from, pos, cands);
            && After(seen, c) && c !in seen
            && (c in cands ==> Seen(s, from, pos + 1, cands) == seen + {c})
            && (c !in cands ==> Seen(s, from, pos + 1, cands) == seen)
  {
    PassedNext(s, from, pos);
    BeforeAsym(s.cells[pos], s.cells[pos]);
  }

  lemma FedSkips(s: Scan, from: nat, pos: nat)
    requires Sorted(s.cells) && from <= pos < |s.cells| && Skipped(s, s.cells[pos])
    ensures FedCells(s, from, pos + 1) == FedCells(s, from, pos)
  {
    PassedNext(s, from, pos);
  }

  lemma SameCounts(s: Scan, quNum: nat, seen: set<Cell>, x: Cursor, x': Cursor)
    requires AllCounts(s, quNum, seen, x) && x' == x.(pos := x'.pos)
    ensures AllCounts(s, quNum, seen, x')
  {
    forall c: Cell | c.row != [] && After(seen, c) ensures CountsFor(s, quNum, seen, x', c) {
      assert CountsFor(s, quNum, seen, x, c);
    }
  }

  lemma TurnCounts(s: Scan, quNum: nat, x: Cursor, x': Cursor, c: Cell, seen: set<Cell>, isCand: bool)
    requires AllCounts(s, quNum, seen, x) && After(seen, c) && c.row != [] && c !in seen
    requires isCand ==> Moves(s, x, c, x')
    requires !isCand ==> x' == x.(pos := x'.pos)
    ensures isCand ==> AllCounts(s, quNum, seen + {c}, x')
    ensures !isCand ==> AllCounts(s, quNum, seen, x')
    ensures HasRoom(s, x, c) <==> Within(s, quNum, seen, c)
  {
    assert CountsFor(s, quNum, seen, x, c);
    RoomIsRank(s, quNum, seen, x, c);
    if isCand {
      AllCountsNext(s, quNum, seen, x, c, x');
    } else {
      SameCounts(s, quNum, seen, x, x');
    }
  }

  // ---------- the whole scan ----------

  function OutOf(c: Cell): Out {
    Out(c.row, c.cf, c.qual, c.ts, c.value)
  }

  function Outs(cells: seq<Cell>): seq<Out> {
    seq(|cells|, i requires 0 <= i < |cells| => OutOf(cells[i]))
  }

  /** Once the end of the range is reached nothing further is wanted. */
  lemma NothingPastEnd(s: Scan, quNum: nat, pos: nat, cands: set<Cell>)
    requires Sorted(s.cells) && pos <= |s.cells| && Finished(s, pos)
    ensures forall c :: c in s.cells[pos..] ==> !ScanWants(s, quNum, cands, c)
  {
    forall j | pos <= j < |s.cells| ensures !ScanWants(s, quNum, cands, s.cells[j]) {
      var a, b := s.cells[pos].row, s.cells[j].row;
      assert pos < j ==> Before(s.cells[pos], s.cells[j]);
      if LexLt(b, s.end) && LexLt(a, b) { LexTrans(a, b, s.end); }
    }
    forall c | c in s.cells[pos..] ensures !ScanWants(s, quNum, cands, c) {
      var j :| 0 <= j < |s.cells[pos..]| && s.cells[pos..][j] == c;
      assert s.cells[pos + j] == c;
    }
  }

  lemma RestAfter(s: Scan, pos: nat)
    requires Sorted(s.cells) && pos < |s.cells|
    ensures forall c :: c in s.cells[pos + 1..] ==> Before(s.cells[pos], c)
    ensures forall c :: c in s.cells[pos..] <==> c == s.cells[pos] || c in s.cells[pos + 1..]
  {
    assert s.cells[pos..] == [s.cells[pos]] + s.cells[pos + 1..];
    forall c | c in s.cells[pos + 1..] ensures Before(s.cells[pos], c) {
      var j :| 0 <= j < |s.cells[pos + 1..]| && s.cells[pos + 1..][j] == c;
      assert s.cells[pos + 1 + j] == c;
    }
  }

  /** The wanted cells from position `i` on. */
  ghost function WantedCells(s: Scan, quNum: nat, cands: set<Cell>, i: nat): seq<Cell>
    decreases |s.cells| - i
  {
    if i >= |s.cells| then []
    else Prepend(ScanWants(s, quNum, cands, s.cells[i]) && Wanted(s.opts, s.cells[i]), s.cells[i],
                 WantedCells(s, quNum, cands, i + 1))
  }

  lemma {:induction false} WantedMembers(s: Scan, quNum: nat, cands: set<Cell>, i: nat)
    requires Sorted(s.cells) && i <= |s.cells|
    ensures Sorted(WantedCells(s, quNum, cands, i))
    ensures forall c :: c in WantedCells(s, quNum, cands, i) <==>
              c in s.cells[i..] && ScanWants(s, quNum, cands, c) && Wanted(s.opts, c)
    decreases |s.cells| - i
  {
    if i < |s.cells| {
      var c := s.cells[i];
      WantedMembers(s, quNum, cands, i + 1);
      RestAfter(s, i);
      PrependSorted(ScanWants(s, quNum, cands, c) && Wanted(s.opts, c), c, s.cells[i + 1..],
                    WantedCells(s, quNum, cands, i + 1));
    }
  }

  lemma {:induction false} NoneWanted(s: Scan, quNum: nat, cands: set<Cell>, i: nat)
    requires i <= |s.cells| && forall c :: c in s.cells[i..] ==> !ScanWants(s, quNum, cands, c)
    ensures WantedCells(s, quNum, cands, i) == []
    decreases |s.cells| - i
  {
    if i < |s.cells| {
      assert s.cells[i..] == [s.cells[i]] + s.cells[i + 1..];
      NoneWanted(s, quNum, cands, i + 1);
    }
  }

  lemma OutsPrepend(s: Scan, pos: nat, wants: bool, hits: seq<Hit>, rest: seq<Cell>)
    requires pos < |s.cells| && hits == if wants then [Hit(pos, s.cells[pos].value)] else []
    ensures var c := s.cells[pos];
            InRange(s, hits) && Shown(s, hits) + Outs(rest) == Outs(Prepend(wants && Wanted(s.opts, c), c, rest))
  {
    var c := s.cells[pos];
    if wants { assert Shown(s, hits[1..]) == []; }
    var all := Prepend(wants && Wanted(s.opts, c), c, rest);
    assert Shown(s, hits) + Outs(rest) == Outs(all);
  }

  lemma WantedUnfold(s: Scan, quNum: nat, cands: set<Cell>, i: nat, wants: bool)
    requires i < |s.cells| && (wants <==> ScanWants(s, quNum, cands, s.cells[i]))
    ensures WantedCells(s, quNum, cands, i) ==
            Prepend(wants && Wanted(s.opts, s.cells[i]), s.cells[i], WantedCells(s, quNum, cands, i + 1))
  {
  }

  lemma WantedNext(s: Scan, pos: nat, wants: bool, hits: seq<Hit>, out: seq<Out>, out': seq<Out>, all: seq<Cell>,
                   rest: seq<Cell>)
    requires pos < |s.cells| && InRange(s, hits) && out == Shown(s, hits) + out' && out' == Outs(rest)
    requires hits == if wants then [Hit(pos, s.cells[pos].value)] else []
    requires all == Prepend(wants && Wanted(s.opts, s.cells[pos]), s.cells[pos], rest)
    ensures out == Outs(all)
  {
    OutsPrepend(s, pos, wants, hits, rest);
  }

  lemma OutputTurn(s: Scan, quNum: nat, from: nat, cands: set<Cell>, seen: set<Cell>, st: State, x: Cursor)
    returns (wants: bool, seen': set<Cell>, st': State, x': Cursor, hits: seq<Hit>)
    requires PlainHistory(s, from) && LoopInv(s, quNum, from, cands, seen, st, x) && !Finished(s, x.pos)
    requires cands == Candidates(s)
    ensures LoopInv(s, quNum, from, cands, seen', st', x') && x'.pos == x.pos + 1
    ensures wants <==> ScanWants(s, quNum, cands, s.cells[x.pos])
    ensures hits == if wants then [Hit(x.pos, s.cells[x.pos].value)] else []
    ensures InRange(s, hits) && Output(s, st, x) == Shown(s, hits) + Output(s, st', x')
  {
    OutputStep(s, st, x);
    wants := ScanWants(s, quNum, cands, s.cells[x.pos]);
    seen', st', x', hits := Turn(s, quNum, from, cands, seen, st, x);
  }

  /** From anywhere in the scan, what is still to come is the wanted cells still to come. */
  lemma {:induction false} OutputIsWanted(s: Scan, quNum: nat, from: nat, cands: set<Cell>, seen: set<Cell>,
                                          st: State, x: Cursor)
    requires PlainHistory(s, from) && LoopInv(s, quNum, from, cands, seen, st, x) && cands == Candidates(s)
    ensures Output(s, st, x) == Outs(WantedCells(s, quNum, cands, x.pos))
    decreases |s.cells| - x.pos
  {
    if Finished(s, x.pos) {
      NothingPastEnd(s, quNum, x.pos, cands);
      NoneWanted(s, quNum, cands, x.pos);
    } else {
      var wants, seen', st', x', hits := OutputTurn(s, quNum, from, cands, seen, st, x);
      OutputIsWanted(s, quNum, from, cands, seen', st', x');
      WantedUnfold(s, quNum, cands, x.pos, wants);
      WantedNext(s, x.pos, wants, hits, Output(s, st, x), Output(s, st', x'),
                 WantedCells(s, quNum, cands, x.pos), WantedCells(s, quNum, cands, x'.pos));
    }
  }

  /** A scan session, however cut into batches and wherever its start key falls, delivers
      exactly the candidates of its range within its limits and filters, in key order. */
  method ScanDelivers(s: Scan, from: nat, quNum: nat, limits: seq<(nat, int)>) returns (batches: seq<seq<Out>>)
    requires PlainHistory(s, from)
    ensures Flatten(batches) == Outs(WantedCells(s, quNum, Candidates(s), from))
  {
    batches := ScanSession(s, from, quNum, limits);
    LoopStarts(s, from, quNum, Candidates(s));
    OutputIsWanted(s, quNum, from, Candidates(s), {}, Fresh, NewCursor(from, quNum));
  }
}

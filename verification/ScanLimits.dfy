/** The version and qualifier limits of a scan, over whole sessions. */
module ScanLimits {
  import opened Bytes
  import opened Cells
  import opened Strategy
  import opened AtomicMerge
  import opened TabletScan

  /** The accepted cells of the column of `d`. */
  ghost function InCell(cells: seq<Cell>, acc: set<nat>, d: Cell): set<nat>
    requires forall i :: i in acc ==> i < |cells|
  {
    set i | i in acc && SameCell(cells[i], d)
  }

  /** The qualifiers accepted in the family of `d`. */
  ghost function Quals(cells: seq<Cell>, acc: set<nat>, d: Cell): set<Bytes>
    requires forall i :: i in acc ==> i < |cells|
  {
    set i | i in acc && SameCol(cells[i], d) :: cells[i].qual
  }

  /** The code lets the first version and the first qualifier through before it counts. */
  function AtLeastOne(n: nat): nat {
    if n == 0 then 1 else n
  }

  ghost predicate WithinLimits(s: Scan, acc: set<nat>) {
    && (forall i :: i in acc ==> i < |s.cells|)
    && (forall d :: |InCell(s.cells, acc, d)| <= AtLeastOne(s.opts.maxVersions))
    && (forall d :: |Quals(s.cells, acc, d)| <= AtLeastOne(s.opts.maxQualifiers))
  }

  /** `last` is the cell whose names the cursor carries, -1 before the first. */
  ghost predicate Counts(s: Scan, x: Cursor, acc: set<nat>, last: int) {
    && WithinLimits(s, acc) && -1 <= last < x.pos && CountsQualifiers(s.opts, x.quNum)
    && (forall i :: i in acc ==> i <= last && !Before(s.cells[i], s.start))
    && (last == -1 ==> x.lastKey == [])
    && (last >= 0 ==> CountsAt(s, x, acc, last))
  }

  /** The first qualifier is counted, or a column that begins before the start key is
      never shown. */
  predicate CountsQualifiers(o: Options, quNum: nat) {
    quNum >= 1 || o.maxVersions <= 1
  }

  ghost predicate CountsAt(s: Scan, x: Cursor, acc: set<nat>, last: nat)
    requires forall i :: i in acc ==> i < |s.cells|
  {
    && last < |s.cells| && SameColumn(x, s.cells[last]) && x.versionNum >= 1
    && (acc == {} || last in acc)
    && |InCell(s.cells, acc, s.cells[last])| <= x.versionNum
    && |Quals(s.cells, acc, s.cells[last])| <= x.quNum
  }

  ghost predicate Ordered(s: Scan) {
    Sorted(s.cells) && forall c :: c in s.cells ==> WellFormed(c)
  }

  /** A column (a family) the cursor has left does not come back. */
  lemma LeftBehind(s: Scan, x: Cursor, acc: set<nat>, last: int, c: Cell)
    requires Ordered(s) && Counts(s, x, acc, last) && x.pos < |s.cells| && c == s.cells[x.pos]
    ensures !SameColumn(x, c) ==> InCell(s.cells, acc, c) == {}
    ensures !(x.lastKey == c.row && x.lastCol == c.cf) ==> Quals(s.cells, acc, c) == {}
    ensures SameColumn(x, c) ==> last >= 0 && InCell(s.cells, acc, c) == InCell(s.cells, acc, s.cells[last])
    ensures x.lastKey == c.row && x.lastCol == c.cf ==>
              last >= 0 && Quals(s.cells, acc, c) == Quals(s.cells, acc, s.cells[last])
  {
    assert c in s.cells;
    forall i | i in acc
      ensures SameCell(s.cells[i], c) ==> SameColumn(x, c)
      ensures SameCol(s.cells[i], c) ==> x.lastKey == c.row && x.lastCol == c.cf
    {
      if i < last { Grouping(s.cells[i], s.cells[last], c); }
    }
  }

  lemma AddHit(s: Scan, acc: set<nat>, pos: nat, d: Cell)
    requires (forall i :: i in acc ==> i < pos) && pos < |s.cells|
    ensures var c, acc' := s.cells[pos], acc + {pos};
            && (SameCell(c, d) ==> |InCell(s.cells, acc', d)| == |InCell(s.cells, acc, d)| + 1)
            && (!SameCell(c, d) ==> InCell(s.cells, acc', d) == InCell(s.cells, acc, d))
            && (SameCol(c, d) ==> Quals(s.cells, acc', d) == Quals(s.cells, acc, d) + {c.qual})
            && (!SameCol(c, d) ==> Quals(s.cells, acc', d) == Quals(s.cells, acc, d))
  {
    var c, acc' := s.cells[pos], acc + {pos};
    if SameCell(c, d) {
      assert InCell(s.cells, acc', d) == InCell(s.cells, acc, d) + {pos};
    }
    if SameCol(c, d) {
      forall q ensures q in Quals(s.cells, acc', d) <==> q in Quals(s.cells, acc, d) + {c.qual} {
        if q in Quals(s.cells, acc, d) {
          var i :| i in acc && SameCol(s.cells[i], d) && s.cells[i].qual == q;
          assert i in acc';
        }
        if q == c.qual { assert pos in acc'; }
      }
    } else {
      forall q ensures q in Quals(s.cells, acc', d) <==> q in Quals(s.cells, acc, d) {
        if q in Quals(s.cells, acc, d) {
          var i :| i in acc && SameCol(s.cells[i], d) && s.cells[i].qual == q;
          assert i in acc';
        }
      }
    }
  }

  lemma AddOneQual(a: set<Bytes>, q: Bytes)
    ensures |a + {q}| <= |a| + 1
    ensures q in a ==> a + {q} == a
  {
  }

  /** The sizes for a column and a family `d` after a hit. */
  lemma HitAt(s: Scan, acc: set<nat>, pos: nat, d: Cell, versions: nat, quals: nat)
    requires (forall i :: i in acc ==> i < pos) && pos < |s.cells|
    requires |InCell(s.cells, acc, s.cells[pos])| + 1 <= versions && |InCell(s.cells, acc, d)| <= versions
    requires |Quals(s.cells, acc, s.cells[pos]) + {s.cells[pos].qual}| <= quals && |Quals(s.cells, acc, d)| <= quals
    ensures |InCell(s.cells, acc + {pos}, d)| <= versions && |Quals(s.cells, acc + {pos}, d)| <= quals
  {
    var c := s.cells[pos];
    AddHit(s, acc, pos, d);
    if SameCell(c, d) { assert InCell(s.cells, acc, d) == InCell(s.cells, acc, c); }
    if SameCol(c, d) { assert Quals(s.cells, acc, d) == Quals(s.cells, acc, c); }
  }

  lemma HitWithin(s: Scan, acc: set<nat>, pos: nat)
    requires WithinLimits(s, acc) && (forall i :: i in acc ==> i < pos) && pos < |s.cells|
    requires |InCell(s.cells, acc, s.cells[pos])| + 1 <= AtLeastOne(s.opts.maxVersions)
    requires |Quals(s.cells, acc, s.cells[pos]) + {s.cells[pos].qual}| <= AtLeastOne(s.opts.maxQualifiers)
    ensures WithinLimits(s, acc + {pos})
  {
    forall d
      ensures |InCell(s.cells, acc + {pos}, d)| <= AtLeastOne(s.opts.maxVersions)
      ensures |Quals(s.cells, acc + {pos}, d)| <= AtLeastOne(s.opts.maxQualifiers)
    {
      HitAt(s, acc, pos, d, AtLeastOne(s.opts.maxVersions), AtLeastOne(s.opts.maxQualifiers));
    }
  }

  /** The loop has room for the cell at the cursor. */
  predicate HasRoom(s: Scan, x: Cursor, c: Cell) {
    if SameColumn(x, c) then x.versionNum + 1 <= s.opts.maxVersions
    else x.lastKey == c.row && x.lastCol == c.cf ==> x.quNum + 1 <= s.opts.maxQualifiers
  }

  /** The counters after the cell at the cursor is accepted. */
  predicate Counted(x: Cursor, c: Cell, x': Cursor) {
    && x.pos < x'.pos && SameColumn(x', c)
    && x'.versionNum == (if SameColumn(x, c) then x.versionNum + 1 else 1)
    && x'.quNum == (if SameColumn(x, c) then x.quNum
                    else if x.lastKey == c.row && x.lastCol == c.cf then x.quNum + 1 else 1)
  }

  lemma RoomForHit(s: Scan, x: Cursor, acc: set<nat>, last: int, c: Cell, x': Cursor)
    requires Ordered(s) && Counts(s, x, acc, last) && x.pos < |s.cells| && c == s.cells[x.pos]
    requires HasRoom(s, x, c) && Counted(x, c, x')
    ensures |InCell(s.cells, acc, c)| + 1 <= x'.versionNum
    ensures |InCell(s.cells, acc, c)| + 1 <= AtLeastOne(s.opts.maxVersions)
    ensures |Quals(s.cells, acc, c) + {c.qual}| <= x'.quNum
    ensures |Quals(s.cells, acc, c) + {c.qual}| <= AtLeastOne(s.opts.maxQualifiers)
  {
    LeftBehind(s, x, acc, last, c);
    AddOneQual(Quals(s.cells, acc, c), c.qual);
    if SameColumn(x, c) {
      if acc == {} {
        assert Quals(s.cells, acc, c) == {};
      } else {
        assert last in acc && SameCol(s.cells[last], c) && s.cells[last].qual == c.qual;
        assert c.qual in Quals(s.cells, acc, c);
      }
    }
  }

  /** Accepting the cell at the cursor keeps the counts, when the cursor has room. */
  lemma CountsAccept(s: Scan, x: Cursor, acc: set<nat>, last: int, x': Cursor)
    requires Ordered(s) && Counts(s, x, acc, last) && x.pos < |s.cells|
    requires !Before(s.cells[x.pos], s.start)
    requires HasRoom(s, x, s.cells[x.pos]) && Counted(x, s.cells[x.pos], x')
    ensures Counts(s, x', acc + {x.pos}, x.pos)
  {
    var c := s.cells[x.pos];
    RoomForHit(s, x, acc, last, c, x');
    HitWithin(s, acc, x.pos);
    AddHit(s, acc, x.pos, c);
  }

  /** Passing over a cell before the start key keeps the counts: nothing is accepted yet. */
  lemma CountsPass(s: Scan, x: Cursor, acc: set<nat>, last: int, x': Cursor)
    requires Ordered(s) && Counts(s, x, acc, last) && x.pos < |s.cells| && x.pos < x'.pos
    requires Before(s.cells[x.pos], s.start) && SameColumn(x', s.cells[x.pos]) && x'.quNum == x.quNum
    requires x'.versionNum >= 1
    ensures Counts(s, x', acc, x.pos)
  {
    var c := s.cells[x.pos];
    forall i | i in acc ensures false {
      BeforeTrans(s.cells[i], c, s.start);
    }
    assert acc == {};
    assert InCell(s.cells, acc, c) == {} && Quals(s.cells, acc, c) == {};
  }

  ghost function Ats(hits: seq<Hit>): set<nat> {
    set h | h in hits :: h.at
  }

  lemma AtsConcat(a: seq<Hit>, b: seq<Hit>)
    ensures Ats(a + b) == Ats(a) + Ats(b)
  {
  }

  /** A turn accepts the cell, passes over it before the start key, or leaves the names and
      the version count alone. */
  predicate TurnOf(s: Scan, x: Cursor, c: Cell, x': Cursor, hits: seq<Hit>) {
    || (|hits| == 1 && hits[0].at == x.pos && !Before(c, s.start) && HasRoom(s, x, c) && Counted(x, c, x'))
    || (hits == [] && Before(c, s.start) && SameColumn(x', c) && x'.quNum == x.quNum && x.pos < x'.pos &&
        x'.versionNum == if SameColumn(x, c) then x.versionNum + 1 else 1)
    || (hits == [] && x.pos < x'.pos && x'.lastKey == x.lastKey && x'.lastCol == x.lastCol && x'.lastQual == x.lastQual &&
        x'.versionNum >= x.versionNum && x'.quNum >= x.quNum)
  }

  lemma StepIsTurn(s: Scan, st: State, x: Cursor)
    requires x.pos < |s.cells|
    ensures TurnOf(s, x, s.cells[x.pos], Step(s, st, x).1, Step(s, st, x).2)
  {
    StepAdvances(s, st, x);
  }

  /** One turn of the loop. */
  lemma CountsStep(s: Scan, x: Cursor, acc: set<nat>, last: int, x': Cursor, hits: seq<Hit>)
    returns (acc': set<nat>, last': int)
    requires Ordered(s) && Counts(s, x, acc, last) && x.pos < |s.cells| && TurnOf(s, x, s.cells[x.pos], x', hits)
    ensures Counts(s, x', acc', last') && acc' == acc + Ats(hits)
  {
    var c := s.cells[x.pos];
    if hits != [] {
      assert hits == [hits[0]] && hits[0] in hits;
      assert Ats(hits) == {x.pos};
      CountsAccept(s, x, acc, last, x');
      acc', last' := acc + {x.pos}, x.pos;
    } else {
      assert Ats(hits) == {};
      acc' := acc;
      if Before(c, s.start) && SameColumn(x', c) && x'.quNum == x.quNum && x'.versionNum >= 1 {
        CountsPass(s, x, acc, last, x');
        last' := x.pos;
      } else {
        last' := last;
      }
    }
  }

  lemma CountsTurn(s: Scan, st: State, x: Cursor, acc: set<nat>, last: int)
    returns (st': State, x': Cursor, hits: seq<Hit>, acc': set<nat>, last': int)
    requires Ordered(s) && Counts(s, x, acc, last) && !Finished(s, x.pos)
    ensures x.pos < x'.pos <= |s.cells|
    ensures Accepted(s, st, x) == hits + Accepted(s, st', x')
    ensures Counts(s, x', acc', last') && acc' == acc + Ats(hits)
  {
    var next := Step(s, st, x);
    st', x', hits := next.0, next.1, next.2;
    StepAdvances(s, st, x);
    StepIsTurn(s, st, x);
    acc', last' := CountsStep(s, x, acc, last, x', hits);
  }

  /** Whatever the history, the start key and the family list, a scan accepts at most
      max(1, max_versions) cells of a column and max(1, max_qualifiers) qualifiers of a
      family of a row.  Batches share one cursor, so this holds across a whole session. */
  lemma {:induction false} ScanWithinLimits(s: Scan, st: State, x: Cursor, acc: set<nat>, last: int)
    requires Ordered(s) && Counts(s, x, acc, last)
    ensures WithinLimits(s, acc + Ats(Accepted(s, st, x)))
    decreases |s.cells| - x.pos
  {
    if Finished(s, x.pos) {
      assert acc + Ats(Accepted(s, st, x)) == acc;
    } else {
      var st', x', hits, acc', last' := CountsTurn(s, st, x, acc, last);
      ScanWithinLimits(s, st', x', acc', last');
      AtsConcat(hits, Accepted(s, st', x'));
      assert acc + Ats(Accepted(s, st, x)) == acc' + Ats(Accepted(s, st', x'));
    }
  }

  ghost function AcceptedAt(s: Scan, from: nat, quNum: nat): set<nat> {
    Ats(Accepted(s, Fresh, NewCursor(from, quNum)))
  }

  lemma NothingCounted(s: Scan)
    ensures WithinLimits(s, {})
  {
    forall d ensures |InCell(s.cells, {}, d)| == 0 && |Quals(s.cells, {}, d)| == 0 {
      assert InCell(s.cells, {}, d) == {} && Quals(s.cells, {}, d) == {};
    }
  }

  lemma SessionWithinLimits(s: Scan, from: nat, quNum: nat)
    requires Ordered(s) && CountsQualifiers(s.opts, quNum)
    ensures WithinLimits(s, AcceptedAt(s, from, quNum))
  {
    NothingCounted(s);
    if from < |s.cells| {
      ScanWithinLimits(s, Fresh, NewCursor(from, quNum), {}, -1);
      assert {} + AcceptedAt(s, from, quNum) == AcceptedAt(s, from, quNum);
    } else {
      assert AcceptedAt(s, from, quNum) == {};
    }
  }

  /** A scan with these options, starting with this qualifier count, never exceeds its own
      limits, on any history and from any start key. */
  ghost predicate AlwaysRespected(o: Options, quNum: nat) {
    forall s, from :: Ordered(s) && s.opts == o ==> RespectsOwn(s, AcceptedAt(s, from, quNum))
  }

  ghost predicate RespectsOwn(s: Scan, acc: set<nat>) {
    && (forall i :: i in acc ==> i < |s.cells|)
    && (forall d :: |InCell(s.cells, acc, d)| <= s.opts.maxVersions)
    && (forall d :: |Quals(s.cells, acc, d)| <= s.opts.maxQualifiers)
  }

  /** A one-cell table that no option hides. */
  function OneCell(o: Options, cf: Bytes): Scan {
    var c := Cell([1], cf, [1], 0, Kind.Value, 0, []);
    Scan(Env(map[cf := Family(1, 0)], 0), [c], o, c, [])
  }

  lemma OneCellAccepted(o: Options, cf: Bytes, quNum: nat)
    requires o.families == {} || cf in o.families
    ensures Ordered(OneCell(o, cf)) && AcceptedAt(OneCell(o, cf), 0, quNum) == {0}
  {
    var s := OneCell(o, cf);
    var c := s.cells[0];
    BeforeAsym(c, c);
    var next := Step(s, Fresh, NewCursor(0, quNum));
    assert next.2 == [Hit(0, [])] && next.1.pos == 1;
    assert Accepted(s, next.0, next.1) == [];
    assert Accepted(s, Fresh, NewCursor(0, quNum)) == [Hit(0, [])];
    assert Hit(0, []) in Accepted(s, Fresh, NewCursor(0, quNum));
  }

  /** A family that no option hides. */
  lemma ShownFamily(o: Options) returns (cf: Bytes)
    ensures o.families == {} || cf in o.families
  {
    cf := [1];
    if o.families != {} { cf :| cf in o.families; }
  }

  /** A limit of zero is exceeded by a single cell. */
  lemma ZeroExceeded(o: Options, quNum: nat)
    requires o.maxVersions == 0 || o.maxQualifiers == 0
    ensures !AlwaysRespected(o, quNum)
  {
    var cf := ShownFamily(o);
    var s := OneCell(o, cf);
    OneCellAccepted(o, cf, quNum);
    assert InCell(s.cells, {0}, s.cells[0]) == {0};
    assert Quals(s.cells, {0}, s.cells[0]) == {s.cells[0].qual} by {
      assert 0 in {0} && SameCol(s.cells[0], s.cells[0]);
    }
    assert !RespectsOwn(s, AcceptedAt(s, 0, quNum));
  }

  lemma AlwaysWithin(o: Options, quNum: nat)
    requires o.maxVersions >= 1 && o.maxQualifiers >= 1 && CountsQualifiers(o, quNum)
    ensures AlwaysRespected(o, quNum)
  {
    forall s, from | Ordered(s) && s.opts == o ensures RespectsOwn(s, AcceptedAt(s, from, quNum)) {
      SessionWithinLimits(s, from, quNum);
    }
  }
}

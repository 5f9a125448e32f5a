/** ReadCells serves a request for listed columns by seeking, and any other request by
    scanning the row.  When the two ways give the same answer. */
module ReadAgreement {
  import opened Collections
  import opened Bytes
  import opened Cells
  import opened Frontier
  import opened Strategy
  import opened Visibility
  import opened ReadSemantics
  import opened PartialRead
  import opened RowSeek
  import opened TabletScan
  import opened ScanLimits
  import Semantics = ScanSemantics

  /** A request to a history whose row and family marks come first. */
  ghost predicate Orderly(rq: Request) {
    Readable(rq) && MarksFirst(All(rq))
  }

  ghost function VisibleCells(rq: Request): set<Cell> {
    set c | c in All(rq) && Visible(rq.env, All(rq), c)
  }

  /** The column filter ReadCells fills in for a request. */
  ghost predicate Listed(rq: Request, columns: map<Bytes, set<Bytes>>) {
    && rq.columns != []
    && (forall cf :: cf in columns ==> exists i :: 0 <= i < |rq.columns| && rq.columns[i].0 == cf)
    && (forall i :: 0 <= i < |rq.columns| ==>
          rq.columns[i].0 in columns && columns[rq.columns[i].0] == set q | q in rq.columns[i].1)
  }

  /** The scan of one row that ReadCells would set up for the same request. */
  ghost predicate RowScan(rq: Request, s: Scan, from: nat) {
    && s.env == rq.env && s.cells == rq.cells
    && s.opts.maxVersions == rq.maxVersions && s.opts.tsStart == rq.tsStart && s.opts.tsEnd == rq.tsEnd
    && s.opts.maxQualifiers >= |rq.cells|
    && Listed(rq, s.opts.columns) && s.opts.families == s.opts.columns.Keys
    && s.start == Cell(rq.row, [], [], LATEST, Kind.Value, 0, []) && s.end == rq.row + [0]
    && from == SeekFrom(rq.cells, SeekKey(rq.row, [], []), 0)
  }

  lemma {:induction false} RowEnd(row: Bytes, r: Bytes)
    ensures LexLt(r, row + [0]) && !LexLt(r, row) <==> r == row
    decreases |r|
  {
    if r != [] && row != [] {
      assert (row + [0])[1..] == row[1..] + [0];
      assert r == [r[0]] + r[1..] && row == [row[0]] + row[1..];
      RowEnd(row[1..], r[1..]);
    }
  }

  lemma SeekSplitsRows(rq: Request, from: nat)
    requires Readable(rq) && from == SeekFrom(rq.cells, SeekKey(rq.row, [], []), 0)
    ensures forall i :: 0 <= i < from ==> LexLt(rq.cells[i].row, rq.row)
    ensures forall i :: from <= i < |rq.cells| ==> !LexLt(rq.cells[i].row, rq.row)
  {
    LexAsym(rq.row, rq.row);
    forall i | 0 <= i < from ensures LexLt(rq.cells[i].row, rq.row) {
      assert rq.cells[i] in rq.cells;
    }
    if from < |rq.cells| {
      var a := rq.cells[from].row;
      forall i | from < i < |rq.cells| ensures !LexLt(rq.cells[i].row, rq.row) {
        var b := rq.cells[i].row;
        assert Before(rq.cells[from], rq.cells[i]);
        if LexLt(a, b) && LexLt(b, rq.row) { LexTrans(a, b, rq.row); }
      }
    }
  }

  lemma RowScanPlain(rq: Request, s: Scan, from: nat)
    requires Readable(rq) && RowScan(rq, s, from)
    ensures Semantics.Plain(s, from)
  {
    SeekSplitsRows(rq, from);
    LexAsym(rq.row, rq.row);
    forall j | from <= j < |s.cells| && s.cells[j].kind.Value? ensures !Before(s.cells[j], s.start) {
      assert s.cells[j] in rq.cells;
    }
  }

  // ---------- both answers as sets ----------

  /** The visible versions of the column of `c` down to `c`. */
  ghost function FullVersions(vis: set<Cell>, c: Cell): set<Cell> {
    set v | v in vis && SameCell(v, c) && (v == c || Before(v, c))
  }

  ghost predicate Asked(rq: Request, vis: set<Cell>, c: Cell) {
    Requested(rq, |rq.columns|, c) && c in vis && rq.tsStart <= c.ts <= rq.tsEnd
  }

  /** The cells of the answer that a scan gives. */
  ghost predicate Delivered(rq: Request, vis: set<Cell>, c: Cell) {
    Asked(rq, vis, c) && |FullVersions(vis, c)| <= AtLeastOne(rq.maxVersions)
  }

  lemma {:induction false} ImageSmaller(a: set<Cell>, q: set<Bytes>)
    requires forall x :: x in q ==> exists c :: c in a && c.qual == x
    ensures |q| <= |a|
    decreases |q|
  {
    if q != {} {
      var x :| x in q;
      var hit := set c | c in a && c.qual == x;
      var c :| c in a && c.qual == x;
      assert c in hit;
      var rest := a - hit;
      forall y | y in q - {x} ensures exists d :: d in rest && d.qual == y {
        var d :| d in a && d.qual == y;
        assert d in rest;
      }
      ImageSmaller(rest, q - {x});
      assert hit != {} && |rest| == |a| - |hit|;
    }
  }

  lemma {:induction false} ElemsSmaller(cells: seq<Cell>)
    ensures |Elems(cells)| <= |cells|
  {
    if cells != [] {
      ElemsSmaller(cells[1..]);
      assert cells == [cells[0]] + cells[1..];
      assert Elems(cells) == {cells[0]} + Elems(cells[1..]);
    } else {
      assert Elems(cells) == {};
    }
  }

  lemma QualsWithin(s: Scan, c: Cell, cands: set<Cell>)
    requires s.opts.maxQualifiers >= |s.cells| && c in s.cells && cands <= Elems(s.cells)
    ensures |Semantics.QualsIn(Semantics.DownTo(cands, c), c)| <= s.opts.maxQualifiers
  {
    var d := Semantics.DownTo(cands, c);
    ImageSmaller(d, Semantics.QualsIn(d, c));
    SubsetSize(d, Elems(s.cells));
    ElemsSmaller(s.cells);
  }

  /** The column filter lets exactly the requested columns through. */
  lemma FilterIsRequest(rq: Request, s: Scan, from: nat, c: Cell)
    requires WellListed(rq) && RowScan(rq, s, from) && c.row == rq.row
    ensures Wanted(s.opts, c) <==> Requested(rq, |rq.columns|, c) && rq.tsStart <= c.ts <= rq.tsEnd
    ensures Requested(rq, |rq.columns|, c) ==> !Skipped(s, c)
  {
    var m := s.opts.columns;
    assert rq.columns[0].0 in m;
    if Requested(rq, |rq.columns|, c) {
      var i :| 0 <= i < |rq.columns| && rq.columns[i].0 == c.cf && c.qual in rq.columns[i].1;
      assert c.cf in m.Keys;
    }
    if Wanted(s.opts, c) {
      var i :| 0 <= i < |rq.columns| && rq.columns[i].0 == c.cf;
      assert m[c.cf] == set q | q in rq.columns[i].1;
      assert rq.columns[i].1[0] in m[c.cf];
    }
  }

  lemma SuffixIff(cells: seq<Cell>, from: nat, row: Bytes, c: Cell)
    requires from <= |cells| && c in cells
    requires forall i :: 0 <= i < from ==> LexLt(cells[i].row, row)
    requires forall i :: from <= i < |cells| ==> !LexLt(cells[i].row, row)
    ensures c in cells[from..] <==> !LexLt(c.row, row)
  {
    var i :| 0 <= i < |cells| && cells[i] == c;
    if i >= from { assert cells[from..][i - from] == c; }
    if c in cells[from..] {
      var j :| 0 <= j < |cells[from..]| && cells[from..][j] == c;
      assert cells[from + j] == c;
    }
  }

  lemma InRowIsFrom(rq: Request, s: Scan, from: nat, c: Cell)
    requires Readable(rq) && RowScan(rq, s, from) && c in rq.cells
    ensures c in s.cells[from..] && LexLt(c.row, s.end) <==> c.row == rq.row
  {
    SeekSplitsRows(rq, from);
    SuffixIff(rq.cells, from, rq.row, c);
    RowEnd(rq.row, c.row);
  }

  /** What the scan delivers, in the terms of the request. */
  lemma ScanAsked(rq: Request, s: Scan, from: nat, c: Cell, cands: set<Cell>)
    requires Readable(rq) && WellListed(rq) && RowScan(rq, s, from) && cands == Semantics.Candidates(s)
    ensures c in s.cells[from..] && Semantics.ScanWants(s, 1, cands, c) && Wanted(s.opts, c) <==> Delivered(rq, cands, c)
  {
    if c in rq.cells {
      InRowIsFrom(rq, s, from, c);
      if c.row == rq.row {
        FilterIsRequest(rq, s, from, c);
        QualsWithin(s, c, cands);
        RowScanPlain(rq, s, from);
        if c in s.cells[from..] { Semantics.WantsPlain(s, from, 1, cands, c); }
        assert Semantics.VersionsIn(Semantics.DownTo(cands, c), c) == FullVersions(cands, c);
      }
    } else if c in s.cells[from..] {
      assert false;
    }
  }

  /** The scan delivers, in key order, what its request asks for of the cells it keeps. */
  lemma ScanCells(rq: Request, s: Scan, from: nat, cands: set<Cell>) returns (cells: seq<Cell>)
    requires Readable(rq) && WellListed(rq) && RowScan(rq, s, from) && cands == Semantics.Candidates(s)
    ensures Sorted(cells) && Output(s, Fresh, NewCursor(from, 1)) == Semantics.Outs(cells)
    ensures forall c :: c in cells <==> Delivered(rq, cands, c)
  {
    RowScanPlain(rq, s, from);
    Semantics.LoopStarts(s, from, 1, cands);
    Semantics.OutputIsWanted(s, 1, from, cands, {}, Fresh, NewCursor(from, 1));
    cells := Semantics.WantedCells(s, 1, cands, from);
    Semantics.WantedMembers(s, 1, cands, from);
    forall c ensures c in cells <==> Delivered(rq, cands, c) {
      ScanAsked(rq, s, from, c, cands);
    }
  }

  /** Those are the visible ones where marks come first. */
  lemma DeliveredVisible(rq: Request, s: Scan, from: nat, c: Cell, cands: set<Cell>, vis: set<Cell>)
    requires Orderly(rq) && WellListed(rq) && RowScan(rq, s, from)
    requires cands == Semantics.Candidates(s) && vis == VisibleCells(rq)
    ensures Delivered(rq, cands, c) <==> Delivered(rq, vis, c)
  {
    Semantics.CandidatesVisible(s);
    if Requested(rq, |rq.columns|, c) {
      forall e | SameCell(e, c) ensures e in cands <==> e in vis {
        assert Requested(rq, |rq.columns|, e);
        FilterIsRequest(rq, s, from, e);
      }
      assert FullVersions(cands, c) == FullVersions(vis, c);
    }
  }

  lemma VisibleScanned(rq: Request, s: Scan, from: nat) returns (cells: seq<Cell>)
    requires Orderly(rq) && WellListed(rq) && RowScan(rq, s, from)
    ensures Sorted(cells) && Output(s, Fresh, NewCursor(from, 1)) == Semantics.Outs(cells)
    ensures forall c :: c in cells <==> Delivered(rq, VisibleCells(rq), c)
  {
    var cands, vis := Semantics.Candidates(s), VisibleCells(rq);
    cells := ScanCells(rq, s, from, cands);
    forall c ensures c in cells <==> Delivered(rq, vis, c) {
      DeliveredVisible(rq, s, from, c, cands, vis);
    }
  }

  // ---------- when they agree ----------

  /** The two ways of serving a request give the same answer. */
  ghost predicate SameAnswer(s: Scan, from: nat, hits: seq<Cell>) {
    Output(s, Fresh, NewCursor(from, 1)) == Semantics.Outs(hits)
  }

  lemma {:induction false} TimesBounded(a: set<Cell>, lo: nat, hi: int)
    requires lo <= hi + 1 && forall v :: v in a ==> lo <= v.ts <= hi
    requires forall v, w :: v in a && w in a && v.ts == w.ts ==> v == w
    ensures |a| <= hi - lo + 1
    decreases hi - lo
  {
    if lo == hi + 1 {
      assert a == {};
    } else if v :| v in a && v.ts == hi {
      TimesBounded(a - {v}, lo, hi - 1);
    } else {
      TimesBounded(a, lo, hi - 1);
    }
  }

  /** Values of one column have different timestamps. */
  lemma SameTimeSame(h: set<Cell>, v: Cell, w: Cell)
    requires Distinct(h) && v in h && w in h && SameCell(v, w) && v.kind == w.kind && v.ts == w.ts
    ensures v == w
  {
    LexAsym(v.row, v.row);
    LexAsym(v.cf, v.cf);
    LexAsym(v.qual, v.qual);
  }

  lemma VersionsBounded(rq: Request, vis: set<Cell>, c: Cell)
    requires Readable(rq) && vis == VisibleCells(rq) && c in vis
    ensures |ReadVersions(rq, vis, c)| <= |FullVersions(vis, c)| <= LATEST - c.ts + 1
    ensures rq.tsEnd >= LATEST ==> ReadVersions(rq, vis, c) == FullVersions(vis, c)
    ensures c.ts <= rq.tsEnd ==> |ReadVersions(rq, vis, c)| >= 1
  {
    var full := FullVersions(vis, c);
    forall v | v in full ensures c.ts <= v.ts <= LATEST && v.kind.Value? {
      assert v in rq.cells;
      if v != c { NewestFirst(v, c); }
    }
    forall v, w | v in full && w in full && v.ts == w.ts ensures v == w {
      SameTimeSame(All(rq), v, w);
    }
    TimesBounded(full, c.ts, LATEST);
    SubsetSize(ReadVersions(rq, vis, c), full);
    if c.ts <= rq.tsEnd { assert c in ReadVersions(rq, vis, c); }
  }

  function NonNegative(t: int): nat {
    if t < 0 then 0 else t
  }

  /** Nothing can lie in the time range; or the version limit is not zero, and either the
      range has no end or the limit is too large to be reached within the range. */
  predicate LimitsMeet(maxVersions: nat, tsStart: int, tsEnd: int) {
    || tsEnd < NonNegative(tsStart) || LATEST < NonNegative(tsStart)
    || (maxVersions >= 1 && (tsEnd >= LATEST || maxVersions > LATEST - NonNegative(tsStart)))
  }

  /** Seeking reaches the visible cells with no delete-one-version mark of their column
      before them. */
  lemma ReachedVisible(rq: Request)
    requires Orderly(rq)
    ensures ReachedCells(rq) == set c | c in VisibleCells(rq) && Unmarked(All(rq), c)
  {
    forall c | c in All(rq)
      ensures Reached(rq.env, All(rq), c) <==> Visible(rq.env, All(rq), c) && Unmarked(All(rq), c)
    {
      ReachedIff(rq.env, All(rq), c);
    }
  }

  /** Above a cell that seeking reaches, it reaches every visible version. */
  lemma ReachedVersions(rq: Request, vis: set<Cell>, reached: set<Cell>, c: Cell)
    requires Orderly(rq) && vis == VisibleCells(rq) && reached == ReachedCells(rq) && c in reached
    ensures ReadVersions(rq, reached, c) == ReadVersions(rq, vis, c)
  {
    ReachedVisible(rq);
    forall v | v in ReadVersions(rq, vis, c) ensures v in reached {
      forall d | d in All(rq) && d.kind.DelQualifier? && SameCell(d, v) ensures !Before(d, v) {
        if v != c && Before(d, v) { BeforeTrans(d, v, c); }
      }
    }
  }

  lemma SameWants(rq: Request, vis: set<Cell>, reached: set<Cell>, c: Cell)
    requires Orderly(rq) && vis == VisibleCells(rq) && reached == ReachedCells(rq)
    requires LimitsMeet(rq.maxVersions, rq.tsStart, rq.tsEnd)
    ensures Requested(rq, |rq.columns|, c) && SeekWants(rq, reached, c) <==>
              Delivered(rq, vis, c) && Unmarked(All(rq), c)
  {
    ReachedVisible(rq);
    if Asked(rq, vis, c) && c in reached {
      assert c in rq.cells && c.ts <= LATEST;
      VersionsBounded(rq, vis, c);
      ReachedVersions(rq, vis, reached, c);
    }
  }

  /** Every cell a scan would deliver has no delete-one-version mark of its column before
      it. */
  ghost predicate Unspoilt(rq: Request) {
    forall c :: Delivered(rq, VisibleCells(rq), c) ==> Unmarked(All(rq), c)
  }

  lemma {:induction false} DistinctElems(cells: seq<Cell>)
    requires forall i, j :: 0 <= i < j < |cells| ==> cells[i] != cells[j]
    ensures |Elems(cells)| == |cells|
  {
    if cells != [] {
      DistinctElems(cells[1..]);
      assert cells == [cells[0]] + cells[1..];
      assert Elems(cells) == {cells[0]} + Elems(cells[1..]);
    } else {
      assert Elems(cells) == {};
    }
  }

  /** An answer shows its puts: a put in one answer and not in the other tells them apart. */
  lemma PutTells(h: set<Cell>, a: seq<Cell>, b: seq<Cell>, c: Cell)
    requires Distinct(h) && c in a && c !in b && forall e :: e in a || e in b ==> e in h && e.kind.Value?
    ensures Semantics.Outs(a) != Semantics.Outs(b)
  {
    var i :| 0 <= i < |a| && a[i] == c;
    if |a| == |b| {
      var d := b[i];
      assert d in b;
      if SameCell(d, c) && d.ts == c.ts { SameTimeSame(h, d, c); }
      assert Semantics.Outs(a)[i] == Semantics.OutOf(c) && Semantics.Outs(b)[i] == Semantics.OutOf(d);
    } else {
      assert |Semantics.Outs(a)| != |Semantics.Outs(b)|;
    }
  }

  /** With such limits, a request gets the same answer both ways if and only if no cell of
      the answer stands below a delete-one-version mark of its column. */
  lemma SeekIsScan(rq: Request, s: Scan, from: nat, hits: seq<Cell>)
    requires Orderly(rq) && WellListed(rq) && RowScan(rq, s, from)
    requires LimitsMeet(rq.maxVersions, rq.tsStart, rq.tsEnd)
    requires RowHits(rq, ReachedCells(rq), |rq.columns|, hits)
    ensures SameAnswer(s, from, hits) <==> Unspoilt(rq)
  {
    var vis := VisibleCells(rq);
    var cells := VisibleScanned(rq, s, from);
    forall c ensures c in hits <==> c in cells && Unmarked(All(rq), c) {
      SameWants(rq, vis, ReachedCells(rq), c);
    }
    if Unspoilt(rq) {
      SortedUnique(hits, cells);
    } else {
      var c :| Delivered(rq, vis, c) && !Unmarked(All(rq), c);
      PutTells(All(rq), cells, hits, c);
    }
  }

  // ---------- when they do not ----------

  /** `n` consecutive versions of one column, the newest at `top`. */
  function Column(top: nat, n: nat): seq<Cell>
    requires n <= top + 1
  {
    seq(n, i requires 0 <= i < n => Cell([1], [1], [1], top - i, Kind.Value, 0, []))
  }

  function ColumnRequest(top: nat, n: nat, maxVersions: nat, tsStart: int, tsEnd: int): Request
    requires n <= top + 1
  {
    Request(Env(map[[1] := Family(n, 0)], 0), Column(top, n), [1], [([1], [[1]])], maxVersions, tsStart, tsEnd)
  }

  function ColumnScan(rq: Request): Scan {
    Scan(rq.env, rq.cells,
         Options(rq.maxVersions, |rq.cells|, rq.tsStart, rq.tsEnd, map[[1] := {[1]}], {[1]}),
         Cell(rq.row, [], [], LATEST, Kind.Value, 0, []), rq.row + [0])
  }

  lemma ColumnHistory(top: nat, n: nat, h: set<Cell>)
    requires n <= top + 1 && h == Elems(Column(top, n))
    ensures Sorted(Column(top, n)) && History(h) && MarksFirst(h)
    ensures forall c :: c in h ==> c.kind.Value?
  {
    var cells := Column(top, n);
    forall a, b | a in h && b in h && a != b ensures Before(a, b) || Before(b, a) {
      var i :| 0 <= i < n && cells[i] == a;
      var j :| 0 <= j < n && cells[j] == b;
    }
  }

  /** Puts of one family without a time to live, no more of them than it keeps. */
  lemma PutsVisible(rq: Request, h: set<Cell>)
    requires Orderly(rq) && h == All(rq) && rq.env == Env(map[[1] := Family(|rq.cells|, 0)], 0)
    requires forall c :: c in h ==> c.kind.Value? && c.cf == [1]
    ensures VisibleCells(rq) == h && ReachedCells(rq) == h && Unspoilt(rq)
  {
    forall c | c in h ensures Visible(rq.env, h, c) {
      SubsetSize(Versions(h, c), h);
      ElemsSmaller(rq.cells);
    }
    assert VisibleCells(rq) == h;
    ReachedVisible(rq);
  }

  lemma ColumnReadable(top: nat, n: nat, maxVersions: nat, tsStart: int, tsEnd: int)
    requires n <= top + 1 && top <= LATEST
    ensures var rq := ColumnRequest(top, n, maxVersions, tsStart, tsEnd);
            && Orderly(rq) && WellListed(rq) && RowScan(rq, ColumnScan(rq), SeekFrom(rq.cells, SeekKey([1], [], []), 0))
            && VisibleCells(rq) == Elems(rq.cells) && ReachedCells(rq) == Elems(rq.cells) && Unspoilt(rq)
  {
    var rq := ColumnRequest(top, n, maxVersions, tsStart, tsEnd);
    ColumnHistory(top, n, Elems(rq.cells));
    PutsVisible(rq, Elems(rq.cells));
    var m := ColumnScan(rq).opts.columns;
    assert m[[1]] == (set q | q in rq.columns[0].1);
  }

  /** A request with these options, served both ways. */
  ghost predicate Served(maxVersions: nat, tsStart: int, tsEnd: int, rq: Request, s: Scan, from: nat, hits: seq<Cell>) {
    && Orderly(rq) && WellListed(rq) && RowScan(rq, s, from)
    && rq.maxVersions == maxVersions && rq.tsStart == tsStart && rq.tsEnd == tsEnd
    && RowHits(rq, ReachedCells(rq), |rq.columns|, hits)
  }

  /** For these options the two ways give the same answer, whatever the history, the row
      and the columns. */
  ghost predicate AlwaysAgree(maxVersions: nat, tsStart: int, tsEnd: int) {
    forall rq, s, from, hits :: Served(maxVersions, tsStart, tsEnd, rq, s, from, hits) ==> SameAnswer(s, from, hits)
  }

  /** The same for answers that no delete-one-version mark stands above. */
  ghost predicate AgreeUnspoilt(maxVersions: nat, tsStart: int, tsEnd: int) {
    forall rq, s, from, hits ::
      Served(maxVersions, tsStart, tsEnd, rq, s, from, hits) && Unspoilt(rq) ==> SameAnswer(s, from, hits)
  }

  lemma ColumnRequested(rq: Request, c: Cell)
    requires rq.columns == [([1], [[1]])] && rq.row == [1] && c.row == [1] && c.cf == [1] && c.qual == [1]
    ensures Requested(rq, |rq.columns|, c)
  {
    assert rq.columns[0].0 == c.cf && c.qual in rq.columns[0].1;
  }

  /** With a limit of zero, seeking finds nothing and scanning still delivers a version. */
  lemma ZeroDisagrees(tsStart: int, tsEnd: int)
    requires !LimitsMeet(0, tsStart, tsEnd)
    ensures !AgreeUnspoilt(0, tsStart, tsEnd)
  {
    var rq, s, from, vis := ColumnTable(NonNegative(tsStart), 1, 0, tsStart, tsEnd);
    assert Elems(rq.cells) == {rq.cells[0]};
    ZeroTells(rq, s, from, vis, rq.cells[0]);
    assert Served(0, tsStart, tsEnd, rq, s, from, []);
  }

  lemma ZeroTells(rq: Request, s: Scan, from: nat, vis: set<Cell>, c: Cell)
    requires Orderly(rq) && WellListed(rq) && RowScan(rq, s, from) && vis == VisibleCells(rq) && vis == {c}
    requires rq.columns == [([1], [[1]])] && rq.row == [1] && InColumn(rq, [1], [1], c)
    requires rq.maxVersions == 0 && rq.tsStart <= c.ts <= rq.tsEnd
    ensures RowHits(rq, vis, |rq.columns|, []) && !SameAnswer(s, from, [])
  {
    NothingAtZero(rq, vis);
    var cells := VisibleScanned(rq, s, from);
    OneDelivered(rq, vis, c);
    assert c in cells;
  }

  lemma NothingAtZero(rq: Request, vis: set<Cell>)
    requires Orderly(rq) && vis == VisibleCells(rq) && rq.maxVersions == 0
    ensures RowHits(rq, vis, |rq.columns|, [])
  {
    forall d | d in vis && d.ts <= rq.tsEnd ensures !SeekWants(rq, vis, d) {
      VersionsBounded(rq, vis, d);
    }
  }

  /** The column that tells the two ways apart: one version more than the limit, the `k`
      newest of them newer than the time range. */
  ghost predicate TellingShape(rq: Request, vis: set<Cell>, k: nat) {
    && rq.columns == [([1], [[1]])] && rq.row == [1] && vis == Elems(rq.cells)
    && 1 <= k <= rq.maxVersions && |rq.cells| == rq.maxVersions + 1
    && rq.cells[k].ts == rq.tsEnd && rq.tsStart <= rq.cells[rq.maxVersions].ts
    && (forall i :: 0 <= i < |rq.cells| ==> InColumn(rq, [1], [1], rq.cells[i]))
    && (forall i, j :: 0 <= i < j < |rq.cells| ==> rq.cells[i].ts > rq.cells[j].ts)
  }

  ghost predicate Telling(rq: Request, s: Scan, from: nat, vis: set<Cell>, k: nat) {
    && Orderly(rq) && WellListed(rq) && RowScan(rq, s, from) && Unspoilt(rq)
    && vis == VisibleCells(rq) && vis == ReachedCells(rq) && TellingShape(rq, vis, k)
  }

  lemma TellingColumn(top: nat, k: nat, maxVersions: nat, tsStart: int, tsEnd: int)
    returns (rq: Request, s: Scan, from: nat, vis: set<Cell>)
    requires 1 <= k <= maxVersions <= top <= LATEST && top - k == tsEnd && tsStart <= top - maxVersions
    ensures Telling(rq, s, from, vis, k)
    ensures rq.maxVersions == maxVersions && rq.tsStart == tsStart && rq.tsEnd == tsEnd
  {
    rq, s, from, vis := ColumnTable(top, maxVersions + 1, maxVersions, tsStart, tsEnd);
  }

  lemma ColumnTable(top: nat, n: nat, maxVersions: nat, tsStart: int, tsEnd: int)
    returns (rq: Request, s: Scan, from: nat, vis: set<Cell>)
    requires n <= top + 1 && top <= LATEST
    ensures Orderly(rq) && WellListed(rq) && RowScan(rq, s, from)
    ensures vis == VisibleCells(rq) && vis == ReachedCells(rq) && vis == Elems(rq.cells) && Unspoilt(rq)
    ensures rq.columns == [([1], [[1]])] && rq.row == [1] && |rq.cells| == n
    ensures forall i :: 0 <= i < n ==> InColumn(rq, [1], [1], rq.cells[i]) && rq.cells[i].ts == top - i
    ensures rq.maxVersions == maxVersions && rq.tsStart == tsStart && rq.tsEnd == tsEnd
  {
    rq := ColumnRequest(top, n, maxVersions, tsStart, tsEnd);
    s, from, vis := ColumnScan(rq), SeekFrom(rq.cells, SeekKey([1], [], []), 0), VisibleCells(rq);
    ColumnReadable(top, n, maxVersions, tsStart, tsEnd);
  }

  lemma HitIsWanted(rq: Request, vis: set<Cell>, k: nat, i: nat)
    requires TellingShape(rq, vis, k) && i < |rq.cells|
    ensures Requested(rq, |rq.columns|, rq.cells[i])
    ensures SeekWants(rq, vis, rq.cells[i]) <==> i >= k
  {
    ColumnRequested(rq, rq.cells[i]);
    if i >= k { RangeVersions(rq, vis, rq.cells[i], k); }
  }

  lemma SeekHitsColumn(rq: Request, vis: set<Cell>, k: nat)
    requires TellingShape(rq, vis, k) && Sorted(rq.cells)
    ensures RowHits(rq, vis, |rq.columns|, rq.cells[k..])
  {
    var hits := rq.cells[k..];
    forall c ensures c in hits <==> Requested(rq, |rq.columns|, c) && SeekWants(rq, vis, c) {
      if c in rq.cells {
        var i :| 0 <= i < |rq.cells| && rq.cells[i] == c;
        HitIsWanted(rq, vis, k, i);
        if i >= k { assert hits[i - k] == c; }
      }
      if c in hits {
        var i :| 0 <= i < |hits| && hits[i] == c;
        HitIsWanted(rq, vis, k, i + k);
      }
    }
  }

  lemma RangeVersions(rq: Request, vis: set<Cell>, c: Cell, k: nat)
    requires vis == Elems(rq.cells) && k <= |rq.cells|
    requires forall i :: 0 <= i < k ==> rq.cells[i].ts > rq.tsEnd
    ensures |ReadVersions(rq, vis, c)| <= |rq.cells| - k
  {
    forall v | v in ReadVersions(rq, vis, c) ensures v in rq.cells[k..] {
      var i :| 0 <= i < |rq.cells| && rq.cells[i] == v;
      assert rq.cells[k..][i - k] == v;
    }
    SubsetSize(ReadVersions(rq, vis, c), Elems(rq.cells[k..]));
    ElemsSmaller(rq.cells[k..]);
  }

  /** The oldest version is one too many for the scan. */
  lemma OldestBeyond(rq: Request, vis: set<Cell>, k: nat)
    requires TellingShape(rq, vis, k)
    ensures |FullVersions(vis, rq.cells[rq.maxVersions])| == rq.maxVersions + 1
  {
    var c := rq.cells[rq.maxVersions];
    forall v | v in vis ensures SameCell(v, c) && (v == c || Before(v, c)) {
      var i :| 0 <= i < |rq.cells| && rq.cells[i] == v;
    }
    assert FullVersions(vis, c) == Elems(rq.cells);
    DistinctElems(rq.cells);
  }

  lemma AnswersDiffer(rq: Request, s: Scan, from: nat, vis: set<Cell>, k: nat)
    requires Telling(rq, s, from, vis, k)
    ensures !SameAnswer(s, from, rq.cells[k..])
  {
    var cells := VisibleScanned(rq, s, from);
    OldestTells(rq, vis, k, cells);
  }

  lemma OldestTells(rq: Request, vis: set<Cell>, k: nat, cells: seq<Cell>)
    requires TellingShape(rq, vis, k) && Distinct(vis) && forall c :: c in vis ==> c.kind.Value?
    requires forall c :: c in cells <==> Delivered(rq, vis, c)
    ensures Semantics.Outs(cells) != Semantics.Outs(rq.cells[k..])
  {
    var c, hits := rq.cells[rq.maxVersions], rq.cells[k..];
    OldestBeyond(rq, vis, k);
    assert hits[|hits| - 1] == c;
    PutTells(vis, hits, cells, c);
  }

  lemma TellingDisagrees(rq: Request, s: Scan, from: nat, vis: set<Cell>, k: nat)
    requires Telling(rq, s, from, vis, k)
    ensures !AgreeUnspoilt(rq.maxVersions, rq.tsStart, rq.tsEnd)
  {
    SeekHitsColumn(rq, vis, k);
    AnswersDiffer(rq, s, from, vis, k);
    assert Served(rq.maxVersions, rq.tsStart, rq.tsEnd, rq, s, from, rq.cells[k..]);
  }

  lemma Disagree(maxVersions: nat, tsStart: int, tsEnd: int)
    requires maxVersions >= 1 && !LimitsMeet(maxVersions, tsStart, tsEnd)
    ensures !AgreeUnspoilt(maxVersions, tsStart, tsEnd)
  {
    var width := tsEnd - NonNegative(tsStart) + 1;
    var k: nat := if width < maxVersions then maxVersions + 1 - width else 1;
    var rq, s, from, vis := TellingColumn(tsEnd + k, k, maxVersions, tsStart, tsEnd);
    TellingDisagrees(rq, s, from, vis, k);
  }

  // ---------- a mark in the column ----------

  /** A delete-one-version mark, the version it deletes, and the version before that. */
  function MarkedCells(t: nat): seq<Cell> {
    [Cell([1], [1], [1], t + 1, Kind.DelQualifier, 0, []),
     Cell([1], [1], [1], t + 1, Kind.Value, 0, []),
     Cell([1], [1], [1], t, Kind.Value, 0, [])]
  }

  function MarkedRequest(t: nat, maxVersions: nat, tsStart: int, tsEnd: int): Request {
    Request(Env(map[[1] := Family(2, 0)], 0), MarkedCells(t), [1], [([1], [[1]])], maxVersions, tsStart, tsEnd)
  }

  lemma MarkedVisible(t: nat, rq: Request, h: set<Cell>)
    requires rq.cells == MarkedCells(t) && rq.env == Env(map[[1] := Family(2, 0)], 0) && h == Elems(rq.cells)
    requires Orderly(rq)
    ensures VisibleCells(rq) == {rq.cells[2]} && ReachedCells(rq) == {}
  {
    var d, v, c := rq.cells[0], rq.cells[1], rq.cells[2];
    assert d in rq.cells && v in rq.cells && c in rq.cells;
    assert h == {d, v, c};
    assert Before(d, v) && Before(v, c) && Before(d, c) && !Before(c, v) && !Before(v, d);
    assert Precedes(h, d, v);
    assert !OneDeleted(h, c);
    assert Versions(h, c) == {v, c};
    ReachedVisible(rq);
  }

  lemma MarkedHistory(t: nat, cells: seq<Cell>, h: set<Cell>)
    requires cells == MarkedCells(t) && h == Elems(cells)
    ensures Sorted(cells) && History(h) && MarksFirst(h)
  {
    assert h == {cells[0], cells[1], cells[2]};
  }

  lemma MarkedReadable(t: nat, maxVersions: nat, tsStart: int, tsEnd: int)
    returns (rq: Request, s: Scan, from: nat)
    requires t < LATEST
    ensures rq == MarkedRequest(t, maxVersions, tsStart, tsEnd)
    ensures Orderly(rq) && WellListed(rq) && RowScan(rq, s, from)
  {
    rq := MarkedRequest(t, maxVersions, tsStart, tsEnd);
    s, from := ColumnScan(rq), SeekFrom(rq.cells, SeekKey([1], [], []), 0);
    MarkedHistory(t, rq.cells, Elems(rq.cells));
    var m := s.opts.columns;
    assert m[[1]] == (set q | q in rq.columns[0].1);
  }

  /** The scan delivers the older version and seeking, which ends the column at the mark,
      nothing, whatever the version limit. */
  lemma SeekStopsAtMark(t: nat, maxVersions: nat, tsStart: int, tsEnd: int)
    returns (rq: Request, s: Scan, from: nat)
    requires tsStart <= t <= tsEnd && t < LATEST
    ensures rq == MarkedRequest(t, maxVersions, tsStart, tsEnd) && Served(maxVersions, tsStart, tsEnd, rq, s, from, [])
    ensures Output(s, Fresh, NewCursor(from, 1)) == Semantics.Outs([rq.cells[2]])
  {
    rq, s, from := MarkedReadable(t, maxVersions, tsStart, tsEnd);
    MarkedVisible(t, rq, Elems(rq.cells));
    var cells := VisibleScanned(rq, s, from);
    var c, vis := rq.cells[2], VisibleCells(rq);
    OneDelivered(rq, vis, c);
    SortedUnique(cells, [c]);
  }

  lemma OneDelivered(rq: Request, vis: set<Cell>, c: Cell)
    requires rq.columns == [([1], [[1]])] && rq.row == [1] && InColumn(rq, [1], [1], c)
    requires vis == {c} && rq.tsStart <= c.ts <= rq.tsEnd
    ensures forall e :: Delivered(rq, vis, e) <==> e == c
  {
    ColumnRequested(rq, c);
    assert FullVersions(vis, c) == {c};
  }

  // ---------- the exact conditions ----------

  /** No version within the time range can stand below a mark. */
  predicate NoRoomBelow(tsStart: int, tsEnd: int) {
    tsEnd < NonNegative(tsStart) || LATEST <= NonNegative(tsStart)
  }

  lemma NoRoomUnspoilt(rq: Request)
    requires Orderly(rq) && NoRoomBelow(rq.tsStart, rq.tsEnd)
    ensures Unspoilt(rq)
  {
    forall c, d | Delivered(rq, VisibleCells(rq), c) && d in All(rq) && d.kind.DelQualifier? && SameCell(d, c)
      ensures !Before(d, c)
    {
      if Before(d, c) {
        NewestFirst(d, c);
        assert d in rq.cells && c in rq.cells;
        SameTsPrecedes(All(rq), d, c);
      }
    }
  }

  /** The two ways of reading listed columns agree on all answers that no delete-one-version
      mark stands above if and only if the options keep the version limit from mattering
      beyond the time range; and on all answers whatsoever if and only if, besides, no
      version within the range can stand below a mark. */
  lemma SeekIsScanIff(maxVersions: nat, tsStart: int, tsEnd: int)
    ensures AgreeUnspoilt(maxVersions, tsStart, tsEnd) <==> LimitsMeet(maxVersions, tsStart, tsEnd)
    ensures AlwaysAgree(maxVersions, tsStart, tsEnd) <==>
              LimitsMeet(maxVersions, tsStart, tsEnd) && NoRoomBelow(tsStart, tsEnd)
  {
    if LimitsMeet(maxVersions, tsStart, tsEnd) {
      forall rq, s, from, hits | Served(maxVersions, tsStart, tsEnd, rq, s, from, hits)
        ensures SameAnswer(s, from, hits) <==> Unspoilt(rq)
        ensures NoRoomBelow(tsStart, tsEnd) ==> Unspoilt(rq)
      {
        SeekIsScan(rq, s, from, hits);
        if NoRoomBelow(tsStart, tsEnd) { NoRoomUnspoilt(rq); }
      }
      if !NoRoomBelow(tsStart, tsEnd) {
        var rq, s, from := SeekStopsAtMark(NonNegative(tsStart), maxVersions, tsStart, tsEnd);
        assert !SameAnswer(s, from, []);
      }
    } else if maxVersions == 0 {
      ZeroDisagrees(tsStart, tsEnd);
    } else {
      Disagree(maxVersions, tsStart, tsEnd);
    }
  }
}

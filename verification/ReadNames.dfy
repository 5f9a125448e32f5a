/** Reading by seeking and by scanning on histories whose marks need not come first.  Seeking
    looks only at the first cell of a row and of a family for marks; with empty family or
    qualifier names a mark may stand behind it, and the two ways part. */
module ReadNames {
  import opened Bytes
  import opened Cells
  import opened Frontier
  import opened Strategy
  import opened Visibility
  import opened ReadSemantics
  import opened PartialRead
  import opened RowSeek
  import opened ReadAgreement
  import opened TabletScan
  import opened ScanLimits
  import Semantics = ScanSemantics

  /** A request served both ways, whose options make the limits meet and whose history has no
      delete-one-version mark. */
  ghost predicate Comparable(rq: Request, s: Scan, from: nat, hits: seq<Cell>) {
    && Readable(rq) && WellListed(rq) && RowScan(rq, s, from)
    && LimitsMeet(rq.maxVersions, rq.tsStart, rq.tsEnd)
    && (forall c :: c in rq.cells ==> !c.kind.DelQualifier?)
    && RowHits(rq, ReachedCells(rq), |rq.columns|, hits)
  }

  ghost predicate AgreeWithNames(n: Naming) {
    forall rq, s, from, hits :: Comparable(rq, s, from, hits) && Follows(n, All(rq)) ==> SameAnswer(s, from, hits)
  }

  lemma NonEmptyNamesAgree(n: Naming)
    requires !n.emptyFamily && !n.emptyQualifier
    ensures AgreeWithNames(n)
  {
    forall rq, s, from, hits | Comparable(rq, s, from, hits) && Follows(n, All(rq))
      ensures SameAnswer(s, from, hits)
    {
      NonEmptyNamesMarksFirst(All(rq));
      SeekIsScan(rq, s, from, hits);
    }
  }

  // ---------- any set of hits can be listed ----------

  lemma {:induction false} Listing(h: set<Cell>) returns (q: seq<Cell>)
    requires Distinct(h)
    ensures Sorted(q) && forall c :: c in q <==> c in h
    decreases h
  {
    q := [];
    if h != {} {
      var x := FirstOf(h);
      var rest := Listing(h - {x});
      q := [x] + rest;
    }
  }

  lemma Hits(rq: Request) returns (hits: seq<Cell>)
    requires Readable(rq)
    ensures RowHits(rq, ReachedCells(rq), |rq.columns|, hits)
  {
    var reached := ReachedCells(rq);
    var wanted := set c | c in reached && Requested(rq, |rq.columns|, c) && SeekWants(rq, reached, c);
    hits := Listing(wanted);
  }

  /** Both answers consist of puts of the history. */
  lemma AnswersArePuts(rq: Request, s: Scan, cands: set<Cell>, c: Cell)
    requires s.cells == rq.cells && cands == Semantics.Candidates(s)
    ensures c in cands || c in ReachedCells(rq) ==> c in All(rq) && c.kind.Value?
  {
    if c in ReachedCells(rq) { assert Kept(rq.env, Part(All(rq), c), c); }
  }

  /** A put that one way finds and the other does not. */
  lemma Parted(n: Naming, rq: Request, s: Scan, from: nat, hits: seq<Cell>, y: Cell)
    requires Comparable(rq, s, from, hits) && Follows(n, All(rq))
    requires y in hits <==> !Delivered(rq, Semantics.Candidates(s), y)
    ensures !AgreeWithNames(n)
  {
    var cands := Semantics.Candidates(s);
    var cells := ScanCells(rq, s, from, cands);
    forall e | e in cells || e in hits ensures e in All(rq) && e.kind.Value? {
      AnswersArePuts(rq, s, cands, e);
    }
    if y in hits {
      PutTells(All(rq), hits, cells, y);
    } else {
      PutTells(All(rq), cells, hits, y);
    }
  }

  // ---------- an empty qualifier ----------

  const NAME: Bytes := [1]

  /** A put, the older mark of its family behind it, and an older put of the same column. */
  function QualifierCells(): seq<Cell> {
    [Cell([1], NAME, [], 10, Kind.Value, 0, []),
     Cell([1], NAME, [], 5, Kind.DelColumn, 0, []),
     Cell([1], NAME, [], 4, Kind.Value, 0, [])]
  }

  function RequestFor(schema: Schema, cells: seq<Cell>, q: Bytes): Request {
    Request(Env(schema, 0), cells, [1], [(NAME, [q])], 2, 0, LATEST)
  }

  function ScanFor(rq: Request, q: Bytes): Scan {
    Scan(rq.env, rq.cells, Options(2, |rq.cells|, 0, LATEST, map[NAME := {q}], {NAME}),
         Cell(rq.row, [], [], LATEST, Kind.Value, 0, []), rq.row + [0])
  }

  lemma BothWays(schema: Schema, cells: seq<Cell>, q: Bytes)
    returns (rq: Request, s: Scan, from: nat, hits: seq<Cell>)
    requires Sorted(cells) && History(Elems(cells))
    requires forall c :: c in cells ==> c.ts <= LATEST && !c.kind.DelQualifier?
    ensures rq == RequestFor(schema, cells, q) && s == ScanFor(rq, q) && Comparable(rq, s, from, hits)
  {
    rq := RequestFor(schema, cells, q);
    s, from := ScanFor(rq, q), SeekFrom(rq.cells, SeekKey([1], [], []), 0);
    var m := s.opts.columns;
    assert m[NAME] == (set p | p in rq.columns[0].1);
    hits := Hits(rq);
  }

  lemma QualifierHistory(cells: seq<Cell>, h: set<Cell>)
    requires cells == QualifierCells() && h == Elems(cells)
    ensures Sorted(cells) && History(h) && Follows(Naming(false, true), h)
  {
    assert h == {cells[0], cells[1], cells[2]};
  }

  lemma BehindMarkNotReached(env: Env, h: set<Cell>, m: Cell, y: Cell)
    requires m in h && SameCell(m, y) && Before(m, y) && !m.kind.Value?
    ensures !Reached(env, h, y)
  {
    assert !Kept(env, Part(h, m), m);
  }

  /** Seeking stops at the mark, which the scan passes over. */
  lemma EmptyQualifierParts()
    ensures !AgreeWithNames(Naming(false, true))
  {
    var cells, schema := QualifierCells(), map[NAME := Family(2, 0)];
    QualifierHistory(cells, Elems(cells));
    var x, m, y := cells[0], cells[1], cells[2];
    assert m in cells;
    var rq, s, from, hits := BothWays(schema, cells, []);
    BehindMarkNotReached(rq.env, All(rq), m, y);
    ScanKeepsOlder(rq, s, x, m, y, Semantics.Candidates(s));
    Parted(Naming(false, true), rq, s, from, hits, y);
  }

  lemma ScanKeepsOlder(rq: Request, s: Scan, x: Cell, m: Cell, y: Cell, cands: set<Cell>)
    requires rq == RequestFor(map[NAME := Family(2, 0)], QualifierCells(), []) && s == ScanFor(rq, [])
    requires [x, m, y] == QualifierCells() && cands == Semantics.Candidates(s)
    ensures Delivered(rq, cands, y)
  {
    assert Elems(s.cells) == {x, m, y};
    assert Semantics.FedAbove(s, y) == {x, m};
    assert Before(x, m) && Live(s.env, x);
    assert CountedPuts(s.env, {x, m} + {y}, y) <= {x, y};
    PairSize(CountedPuts(s.env, {x, m} + {y}, y), x, y);
    assert Kept(s.env, {x, m}, y);
    PairSize(FullVersions(cands, y), x, y);
    assert rq.columns[0].0 == y.cf && y.qual in rq.columns[0].1;
  }

  lemma PairSize(a: set<Cell>, x: Cell, y: Cell)
    requires a <= {x, y}
    ensures |a| <= 2
  {
    assert {x, y} == a + ({x, y} - a);
  }

  // ---------- an empty family name ----------

  /** A mark of an undeclared family, the row's mark behind it, and an older put. */
  function FamilyCells(): seq<Cell> {
    [Cell([1], [], [], 10, Kind.DelColumn, 0, []),
     Cell([1], [], [], 5, Kind.Del, 0, []),
     Cell([1], NAME, NAME, 3, Kind.Value, 0, [])]
  }

  lemma FamilyHistory(cells: seq<Cell>, h: set<Cell>)
    requires cells == FamilyCells() && h == Elems(cells)
    ensures Sorted(cells) && History(h) && Follows(Naming(true, false), h)
  {
    assert h == {cells[0], cells[1], cells[2]};
  }

  /** Seeking does not get to the row's mark, which the scan honours. */
  lemma EmptyFamilyParts()
    ensures !AgreeWithNames(Naming(true, false))
  {
    var cells, schema := FamilyCells(), map[NAME := Family(1, 0)];
    FamilyHistory(cells, Elems(cells));
    var x, m, y := cells[0], cells[1], cells[2];
    var rq, s, from, hits := BothWays(schema, cells, NAME);
    SeekKeepsDeleted(rq, x, m, y);
    ScanDropsDeleted(s, x, m, y);
    Parted(Naming(true, false), rq, s, from, hits, y);
  }

  lemma ScanDropsDeleted(s: Scan, x: Cell, m: Cell, y: Cell)
    requires s.cells == FamilyCells() && [x, m, y] == FamilyCells() && s.opts.families == {NAME}
    ensures y !in Semantics.Candidates(s)
  {
    assert m in s.cells;
    assert RowKills(s.env, Semantics.FedAbove(s, y), NoLimit, m, y);
  }

  lemma FirstIsPart(h: set<Cell>, x: Cell, m: Cell, y: Cell)
    requires [x, m, y] == FamilyCells() && h == {x, m, y}
    ensures Part(h, y) == {x} && !SameCell(x, y) && !SameCell(m, y)
  {
    assert Before(x, m) && !Opens(h, m);
  }

  lemma KeptAlone(env: Env, x: Cell, m: Cell, y: Cell)
    requires [x, m, y] == FamilyCells() && env == Env(map[NAME := Family(1, 0)], 0)
    ensures Kept(env, {x}, y)
  {
    assert CountedPuts(env, {x} + {y}, y) == {y};
  }

  lemma SeekKeepsDeleted(rq: Request, x: Cell, m: Cell, y: Cell)
    requires rq == RequestFor(map[NAME := Family(1, 0)], FamilyCells(), NAME) && [x, m, y] == FamilyCells()
    ensures Requested(rq, |rq.columns|, y) && SeekWants(rq, ReachedCells(rq), y)
  {
    var h, reached := All(rq), ReachedCells(rq);
    assert h == {x, m, y};
    FirstIsPart(h, x, m, y);
    KeptAlone(rq.env, x, m, y);
    assert ReadVersions(rq, reached, y) == {y};
    assert rq.columns[0].0 == y.cf && y.qual in rq.columns[0].1;
  }

  // ---------- the exact condition ----------

  lemma MoreNames(n: Naming, n': Naming)
    requires (n.emptyFamily ==> n'.emptyFamily) && (n.emptyQualifier ==> n'.emptyQualifier)
    requires AgreeWithNames(n')
    ensures AgreeWithNames(n)
  {
  }

  /** Where limits meet and no single version is deleted, seeking and scanning answer alike on
      every history exactly when the table uses neither empty name. */
  lemma AgreeWithNamesIff(n: Naming)
    ensures AgreeWithNames(n) <==> !n.emptyFamily && !n.emptyQualifier
  {
    if AgreeWithNames(n) && n.emptyQualifier {
      EmptyQualifierParts();
      MoreNames(Naming(false, true), n);
    }
    if AgreeWithNames(n) && n.emptyFamily {
      EmptyFamilyParts();
      MoreNames(Naming(true, false), n);
    }
    if !n.emptyFamily && !n.emptyQualifier { NonEmptyNamesAgree(n); }
  }
}

/** TabletIO::LowLevelSeek: reading chosen columns of one row by seeking to each. */
module RowSeek {
  import opened Bytes
  import opened Cells
  import opened Frontier
  import opened Strategy
  import opened Visibility
  import opened ReadSemantics
  import opened PartialRead

  /** kLatestTs. */
  const LATEST: nat := 0x7FFF_FFFF_FFFF_FFFF

  /** The key an iterator seeks to: before every cell of the column. */
  function SeekKey(row: Bytes, cf: Bytes, qual: Bytes): Cell {
    Cell(row, cf, qual, LATEST, ForSeek, 0, [])
  }

  /** Iterator::Seek: the first position not before the key. */
  function SeekFrom(cells: seq<Cell>, key: Cell, i: nat): (r: nat)
    requires i <= |cells|
    ensures i <= r <= |cells|
    ensures forall j :: i <= j < r ==> Before(cells[j], key)
    ensures r < |cells| ==> !Before(cells[r], key)
    decreases |cells| - i
  {
    if i == |cells| || !Before(cells[i], key) then i else SeekFrom(cells, key, i + 1)
  }

  /** A row read: the columns asked for, family by family, in key order. */
  datatype Request = Request(
    env: Env,
    cells: seq<Cell>,
    row: Bytes,
    columns: seq<(Bytes, seq<Bytes>)>,
    maxVersions: nat,
    tsStart: int,
    tsEnd: int)

  ghost function All(rq: Request): set<Cell> {
    Elems(rq.cells)
  }

  /** A sorted history without atomic operations. */
  ghost predicate Readable(rq: Request) {
    && Sorted(rq.cells) && History(All(rq)) && rq.row != []
    && forall c :: c in rq.cells ==> c.ts <= LATEST
  }

  predicate InColumn(rq: Request, cf: Bytes, q: Bytes, c: Cell) {
    c.row == rq.row && c.cf == cf && c.qual == q
  }

  ghost function ReachedCells(rq: Request): set<Cell> {
    set c | c in All(rq) && Reached(rq.env, All(rq), c)
  }

  /** Of the cells `reached`, the versions from the newest within the time range down
      to `c`. */
  ghost function ReadVersions(rq: Request, reached: set<Cell>, c: Cell): set<Cell> {
    set v | v in reached && SameCell(v, c) && (v == c || Before(v, c)) && v.ts <= rq.tsEnd
  }

  /** What seeking finds in a column: reached, in the time range, and among the
      newest `maxVersions` no newer than the range. */
  ghost predicate SeekWants(rq: Request, reached: set<Cell>, c: Cell) {
    && c in reached && rq.tsStart <= c.ts <= rq.tsEnd
    && |ReadVersions(rq, reached, c)| <= rq.maxVersions
  }

  // ---------- the cells fed so far ----------

  ghost predicate Behind(p: set<Cell>, x: Cell) {
    forall e :: e in p ==> e == x || Before(e, x)
  }

  ghost predicate Fed(rq: Request, p: set<Cell>, st: State) {
    && p <= All(rq) && ScanInv(rq.env, p, st) && (forall e :: e in p ==> ComesUpon(rq.env, All(rq), e))
    && forall z :: z in p && Behind(p, z) ==>
         ScanStep(rq.env, st, z) == (st.(lastTs := z.ts), !Kept(rq.env, p - {z}, z))
  }

  /** The read comes upon `x`, and besides `x` itself it has been fed no delete-one-version
      mark of its column. */
  ghost predicate Feedable(rq: Request, p: set<Cell>, x: Cell) {
    && ComesUpon(rq.env, All(rq), x)
    && forall d :: d in p && d != x && SameCell(d, x) ==> !d.kind.DelQualifier?
  }

  lemma LastUnique(p: set<Cell>, x: Cell, z: Cell)
    requires x in p && z in p && Behind(p, x) && Behind(p, z)
    ensures x == z
  {
    BeforeAsym(x, z);
  }

  /** Feeding the next cell, or the last one again, gives its verdict. */
  lemma FeedOne(rq: Request, p: set<Cell>, st: State, x: Cell)
    requires Readable(rq) && Fed(rq, p, st) && x in All(rq) && Behind(p, x) && Feedable(rq, p, x)
    ensures Fed(rq, p + {x}, ScanStep(rq.env, st, x).0)
    ensures ScanStep(rq.env, st, x).1 <==> !Kept(rq.env, p - {x}, x)
  {
    var step := ScanStep(rq.env, st, x);
    if x in p {
      assert p + {x} == p;
      InvIgnoresTime(rq.env, p, st, x.ts);
      forall z | z in p && Behind(p, z)
        ensures ScanStep(rq.env, step.0, z) == (step.0.(lastTs := z.ts), !Kept(rq.env, p - {z}, z))
      {
        LastUnique(p, x, z);
        OldTimeIgnored(rq.env, st, x, x.ts);
      }
    } else {
      FeedNew(rq, p, st, x);
      assert p - {x} == p;
    }
  }

  lemma FeedNew(rq: Request, p: set<Cell>, st: State, x: Cell)
    requires Readable(rq) && Fed(rq, p, st) && x in All(rq) && Behind(p, x) && x !in p && Feedable(rq, p, x)
    ensures Fed(rq, p + {x}, ScanStep(rq.env, st, x).0)
    ensures ScanStep(rq.env, st, x).1 <==> !Kept(rq.env, p, x)
  {
    var step := ScanStep(rq.env, st, x);
    var p' := p + {x};
    SubsetHistory(rq, p);
    assert After(p, x);
    ScanStepInv(rq.env, p, st, x);
    ScanStepVerdict(rq.env, p, st, x);
    NothingDue(rq.env, p, st, x);
    FedAgain(rq.env, st, x);
    assert p' - {x} == p;
    forall z | z in p' && Behind(p', z)
      ensures ScanStep(rq.env, step.0, z) == (step.0.(lastTs := z.ts), !Kept(rq.env, p' - {z}, z))
    {
      LastUnique(p', x, z);
    }
  }

  lemma SubsetHistory(rq: Request, p: set<Cell>)
    requires Readable(rq) && p <= All(rq)
    ensures History(p)
  {
  }

  method FeedCell(rq: Request, strategy: DefaultCompactStrategy, x: Cell, ghost p: set<Cell>)
    returns (dropped: bool, ghost p': set<Cell>)
    requires Readable(rq) && strategy.schema == rq.env.schema
    requires Fed(rq, p, strategy.st) && x in All(rq) && Behind(p, x) && Feedable(rq, p, x)
    modifies strategy`st
    ensures p' == p + {x} && Fed(rq, p', strategy.st)
    ensures dropped <==> !Kept(rq.env, p - {x}, x)
  {
    FeedOne(rq, p, strategy.st, x);
    dropped := strategy.ScanDrop(x, rq.env.now);
    p' := p + {x};
  }

  // ---------- one column ----------

  predicate InFamily(rq: Request, cf: Bytes, c: Cell) {
    c.row == rq.row && c.cf == cf
  }

  ghost predicate RowFed(rq: Request, p: set<Cell>) {
    forall m :: m in All(rq) && m.row == rq.row && Opens(All(rq), m) ==> m in p
  }

  /** The first cells of the row and of the family have been fed. */
  ghost predicate OpenersFed(rq: Request, cf: Bytes, p: set<Cell>) {
    && RowFed(rq, p)
    && forall m :: m in All(rq) && InFamily(rq, cf, m) && OpensCol(All(rq), m) ==> m in p
  }

  ghost predicate BehindColumn(rq: Request, cf: Bytes, q: Bytes, p: set<Cell>) {
    forall c :: c in All(rq) && InColumn(rq, cf, q, c) ==> Behind(p, c)
  }

  ghost function Span(cells: seq<Cell>, lo: nat, hi: nat): set<Cell>
    requires lo <= hi <= |cells|
  {
    set j | lo <= j < hi :: cells[j]
  }

  lemma SpanNext(cells: seq<Cell>, lo: nat, i: nat)
    requires lo <= i < |cells|
    ensures Span(cells, lo, i + 1) == Span(cells, lo, i) + {cells[i]}
  {
  }

  /** Position `lo` is where the column starts, if it has any cells. */
  ghost predicate ColumnStart(rq: Request, cf: Bytes, q: Bytes, lo: nat) {
    && lo <= |rq.cells|
    && forall j :: 0 <= j < lo ==> !InColumn(rq, cf, q, rq.cells[j])
  }

  lemma SeekFindsColumn(rq: Request, cf: Bytes, q: Bytes, lo: nat)
    requires Readable(rq) && lo == SeekFrom(rq.cells, SeekKey(rq.row, cf, q), 0)
    ensures ColumnStart(rq, cf, q, lo)
  {
    forall j | 0 <= j < lo ensures !InColumn(rq, cf, q, rq.cells[j]) {
      assert rq.cells[j] in rq.cells;
      LexAsym(rq.row, rq.row);
      LexAsym(cf, cf);
      LexAsym(q, q);
    }
  }

  /** Where a cell from the start on is outside the column, the column is over. */
  lemma ColumnOver(rq: Request, cf: Bytes, q: Bytes, lo: nat, i: nat)
    requires Readable(rq) && lo == SeekFrom(rq.cells, SeekKey(rq.row, cf, q), 0) && lo <= i < |rq.cells|
    requires !InColumn(rq, cf, q, rq.cells[i])
    ensures forall j :: i <= j < |rq.cells| ==> !InColumn(rq, cf, q, rq.cells[j])
  {
    var a, key := rq.cells[i], SeekKey(rq.row, cf, q);
    if i > lo && Before(a, key) { BeforeTrans(rq.cells[lo], a, key); }
    forall j | i < j < |rq.cells| ensures !InColumn(rq, cf, q, rq.cells[j]) {
      var b := rq.cells[j];
      LexAsym(a.row, b.row);
      LexAsym(a.cf, b.cf);
      LexAsym(a.qual, b.qual);
      LexTotal(a.row, rq.row);
      LexTotal(a.cf, cf);
      LexTotal(a.qual, q);
    }
  }

  /** The positions from `lo` to `i` are cells of the column, all reached and not too old. */
  ghost predicate Taken(rq: Request, reached: set<Cell>, cf: Bytes, q: Bytes, lo: nat, i: nat) {
    && lo <= i <= |rq.cells|
    && forall j :: lo <= j < i ==>
         InColumn(rq, cf, q, rq.cells[j]) && rq.cells[j] in reached && rq.tsStart <= rq.cells[j].ts
  }

  ghost function Counted(rq: Request, lo: nat, i: nat): set<Cell>
    requires lo <= i <= |rq.cells|
  {
    set v | v in Span(rq.cells, lo, i) && v.ts <= rq.tsEnd
  }

  /** At a reached cell the loop has counted exactly the versions above it. */
  lemma CountedVersions(rq: Request, reached: set<Cell>, cf: Bytes, q: Bytes, lo: nat, i: nat)
    requires Sorted(rq.cells) && reached <= All(rq) && ColumnStart(rq, cf, q, lo) && Taken(rq, reached, cf, q, lo, i) && i < |rq.cells|
    requires InColumn(rq, cf, q, rq.cells[i]) && rq.cells[i] in reached && rq.cells[i].ts <= rq.tsEnd
    ensures ReadVersions(rq, reached, rq.cells[i]) == Counted(rq, lo, i) + {rq.cells[i]}
    ensures rq.cells[i] !in Counted(rq, lo, i)
  {
    var c := rq.cells[i];
    forall v | v in ReadVersions(rq, reached, c) ensures v in Counted(rq, lo, i) + {c} {
      if v != c {
        var j :| 0 <= j < |rq.cells| && rq.cells[j] == v;
        BeforeAsym(v, c);
        assert j < i;
        assert lo <= j;
      }
    }
    forall v | v in Counted(rq, lo, i) ensures v in ReadVersions(rq, reached, c) && v != c {
      var j :| lo <= j < i && rq.cells[j] == v;
      assert v in rq.cells;
      BeforeAsym(v, c);
    }
    assert c in rq.cells;
  }

  /** Nothing wanted is left in the column from position `i` on. */
  ghost predicate NothingLeft(rq: Request, reached: set<Cell>, cf: Bytes, q: Bytes, i: nat) {
    forall j :: i <= j < |rq.cells| && InColumn(rq, cf, q, rq.cells[j]) ==> !SeekWants(rq, reached, rq.cells[j])
  }

  lemma SkippedEnds(rq: Request, reached: set<Cell>, cf: Bytes, q: Bytes, i: nat)
    requires Readable(rq) && i < |rq.cells| && InColumn(rq, cf, q, rq.cells[i])
    requires reached == ReachedCells(rq) && rq.cells[i] !in reached
    ensures NothingLeft(rq, reached, cf, q, i)
  {
    var c := rq.cells[i];
    assert c in rq.cells;
    forall j | i < j < |rq.cells| && InColumn(rq, cf, q, rq.cells[j]) ensures rq.cells[j] !in reached {
      var e :| e in All(rq) && SameCell(e, c) && (e == c || Before(e, c)) && !Kept(rq.env, Part(All(rq), e), e);
      if e != c { BeforeTrans(e, c, rq.cells[j]); }
    }
  }

  lemma OldEnds(rq: Request, reached: set<Cell>, cf: Bytes, q: Bytes, i: nat)
    requires Sorted(rq.cells) && i < |rq.cells| && InColumn(rq, cf, q, rq.cells[i]) && rq.tsStart > rq.cells[i].ts
    ensures NothingLeft(rq, reached, cf, q, i)
  {
    forall j | i < j < |rq.cells| && InColumn(rq, cf, q, rq.cells[j]) ensures !SeekWants(rq, reached, rq.cells[j]) {
      NewestFirst(rq.cells[i], rq.cells[j]);
    }
  }

  lemma VersionsEnd(rq: Request, reached: set<Cell>, cf: Bytes, q: Bytes, i: nat)
    requires Sorted(rq.cells) && i < |rq.cells| && InColumn(rq, cf, q, rq.cells[i])
    requires |ReadVersions(rq, reached, rq.cells[i])| > rq.maxVersions
    ensures NothingLeft(rq, reached, cf, q, i)
  {
    var c := rq.cells[i];
    forall j | i < j < |rq.cells| && InColumn(rq, cf, q, rq.cells[j]) ensures !SeekWants(rq, reached, rq.cells[j]) {
      var d := rq.cells[j];
      forall v | v in ReadVersions(rq, reached, c) ensures v in ReadVersions(rq, reached, d) {
        if v != c { BeforeTrans(v, c, d); }
      }
      assert ReadVersions(rq, reached, d) == ReadVersions(rq, reached, c) + (ReadVersions(rq, reached, d) - ReadVersions(rq, reached, c));
    }
  }

  /** Above the next cell of the column, exactly the column read so far. */
  lemma ColumnAbove(rq: Request, cf: Bytes, q: Bytes, lo: nat, i: nat, e: Cell)
    requires Readable(rq) && ColumnStart(rq, cf, q, lo) && lo <= i < |rq.cells| && InColumn(rq, cf, q, rq.cells[i])
    requires e in All(rq) && SameCell(e, rq.cells[i]) && Before(e, rq.cells[i])
    ensures exists j :: lo <= j < i && rq.cells[j] == e
  {
    var j :| 0 <= j < |rq.cells| && rq.cells[j] == e;
    BeforeAsym(e, rq.cells[i]);
    assert lo <= j < i;
  }

  /** The column down to `i` was all reached, so `i` is reached exactly if it is kept. */
  lemma ReachedNext(rq: Request, reached: set<Cell>, cf: Bytes, q: Bytes, lo: nat, i: nat, p: set<Cell>)
    requires Readable(rq) && reached == ReachedCells(rq) && ColumnStart(rq, cf, q, lo) && Taken(rq, reached, cf, q, lo, i)
    requires i < |rq.cells| && InColumn(rq, cf, q, rq.cells[i]) && p <= All(rq) && Behind(p, rq.cells[i])
    ensures Feedable(rq, p, rq.cells[i])
    ensures rq.cells[i] in reached <==> Kept(rq.env, Part(All(rq), rq.cells[i]), rq.cells[i])
  {
    var c, h := rq.cells[i], All(rq);
    assert c in rq.cells;
    forall d | d in h && SameCell(d, c) && Before(d, c) ensures Kept(rq.env, Part(h, d), d) {
      ColumnAbove(rq, cf, q, lo, i, d);
    }
  }

  /** What has been fed decides about the next cell of the column. */
  lemma FedSuffices(rq: Request, cf: Bytes, q: Bytes, lo: nat, i: nat, p0: set<Cell>, p: set<Cell>)
    requires Readable(rq) && ColumnStart(rq, cf, q, lo) && lo <= i < |rq.cells| && InColumn(rq, cf, q, rq.cells[i])
    requires p0 <= All(rq) && p == p0 + Span(rq.cells, lo, i) && OpenersFed(rq, cf, p0) && BehindColumn(rq, cf, q, p0)
    requires forall e :: e in p ==> ComesUpon(rq.env, All(rq), e)
    ensures p <= All(rq) && Behind(p, rq.cells[i])
    ensures Kept(rq.env, p - {rq.cells[i]}, rq.cells[i]) <==> Kept(rq.env, Part(All(rq), rq.cells[i]), rq.cells[i])
  {
    var c, h := rq.cells[i], All(rq);
    assert c in h;
    forall e | e in p ensures e in h && (e == c || Before(e, c)) {
      if e !in p0 {
        var j :| lo <= j < i && rq.cells[j] == e;
        assert e in rq.cells;
      }
    }
    BeforeAsym(c, c);
    forall e | e in Part(h, c) ensures e in p - {c} {
      if SameCell(e, c) { ColumnAbove(rq, cf, q, lo, i, e); }
    }
    KeptAsPart(rq.env, h, p - {c}, c);
  }

  ghost predicate HitsUpTo(rq: Request, lo: nat, i: nat, hits: seq<Cell>) {
    && lo <= i <= |rq.cells| && Sorted(hits)
    && forall c :: c in hits <==> c in Counted(rq, lo, i)
  }

  lemma HitsSkip(rq: Request, lo: nat, i: nat, hits: seq<Cell>)
    requires HitsUpTo(rq, lo, i, hits) && i < |rq.cells| && rq.tsEnd < rq.cells[i].ts
    ensures HitsUpTo(rq, lo, i + 1, hits) && Counted(rq, lo, i + 1) == Counted(rq, lo, i)
  {
    SpanNext(rq.cells, lo, i);
  }

  lemma HitsAdd(rq: Request, lo: nat, i: nat, hits: seq<Cell>)
    requires Sorted(rq.cells) && HitsUpTo(rq, lo, i, hits) && i < |rq.cells| && rq.cells[i].ts <= rq.tsEnd
    ensures HitsUpTo(rq, lo, i + 1, hits + [rq.cells[i]])
    ensures Counted(rq, lo, i + 1) == Counted(rq, lo, i) + {rq.cells[i]}
  {
    SpanNext(rq.cells, lo, i);
    forall e | e in hits ensures Before(e, rq.cells[i]) {
      assert e in Span(rq.cells, lo, i);
    }
  }

  /** The loop's own state after the positions from `lo` to `i`. */
  ghost predicate ColumnInv(rq: Request, reached: set<Cell>, cf: Bytes, q: Bytes, lo: nat, i: nat, versionNum: nat, hits: seq<Cell>) {
    && ColumnStart(rq, cf, q, lo) && Taken(rq, reached, cf, q, lo, i)
    && versionNum == |Counted(rq, lo, i)| && HitsUpTo(rq, lo, i, hits)
    && forall j :: lo <= j < i && rq.cells[j].ts <= rq.tsEnd ==> SeekWants(rq, reached, rq.cells[j])
  }

  lemma FinishColumn(rq: Request, reached: set<Cell>, cf: Bytes, q: Bytes, lo: nat, i: nat, versionNum: nat, hits: seq<Cell>)
    requires reached <= All(rq) && ColumnInv(rq, reached, cf, q, lo, i, versionNum, hits) && NothingLeft(rq, reached, cf, q, i)
    ensures Sorted(hits) && forall c :: c in hits <==> InColumn(rq, cf, q, c) && SeekWants(rq, reached, c)
  {
    forall c ensures c in hits <==> InColumn(rq, cf, q, c) && SeekWants(rq, reached, c) {
      if c in hits {
        var j :| lo <= j < i && rq.cells[j] == c;
      }
      if InColumn(rq, cf, q, c) && SeekWants(rq, reached, c) {
        var j :| 0 <= j < |rq.cells| && rq.cells[j] == c;
        assert lo <= j < i;
      }
    }
  }

  lemma TurnPast(rq: Request, reached: set<Cell>, cf: Bytes, q: Bytes, lo: nat, i: nat, versionNum: nat, hits: seq<Cell>)
    requires Sorted(rq.cells) && reached <= All(rq) && ColumnInv(rq, reached, cf, q, lo, i, versionNum, hits) && i < |rq.cells|
    requires InColumn(rq, cf, q, rq.cells[i]) && rq.cells[i] in reached
    requires rq.tsStart <= rq.cells[i].ts && rq.tsEnd < rq.cells[i].ts
    ensures ColumnInv(rq, reached, cf, q, lo, i + 1, versionNum, hits)
  {
    HitsSkip(rq, lo, i, hits);
  }

  lemma TurnTake(rq: Request, reached: set<Cell>, cf: Bytes, q: Bytes, lo: nat, i: nat, versionNum: nat, hits: seq<Cell>)
    requires Sorted(rq.cells) && reached <= All(rq) && ColumnInv(rq, reached, cf, q, lo, i, versionNum, hits) && i < |rq.cells|
    requires InColumn(rq, cf, q, rq.cells[i]) && rq.cells[i] in reached
    requires rq.tsStart <= rq.cells[i].ts <= rq.tsEnd
    ensures if versionNum + 1 > rq.maxVersions then NothingLeft(rq, reached, cf, q, i)
            else ColumnInv(rq, reached, cf, q, lo, i + 1, versionNum + 1, hits + [rq.cells[i]])
  {
    CountedVersions(rq, reached, cf, q, lo, i);
    if versionNum + 1 > rq.maxVersions {
      VersionsEnd(rq, reached, cf, q, i);
    } else {
      HitsAdd(rq, lo, i, hits);
      assert rq.cells[i] in rq.cells;
    }
  }

  /** Feed the cell at `i`: it is dropped exactly if it is not reached. */
  method FeedNext(rq: Request, strategy: DefaultCompactStrategy, cf: Bytes, q: Bytes, i: nat, ghost reached: set<Cell>,
                  ghost lo: nat, ghost p0: set<Cell>, ghost p: set<Cell>)
    returns (dropped: bool, ghost p': set<Cell>)
    requires Readable(rq) && strategy.schema == rq.env.schema && Fed(rq, p, strategy.st)
    requires p0 <= All(rq) && OpenersFed(rq, cf, p0) && BehindColumn(rq, cf, q, p0) && reached == ReachedCells(rq)
    requires i < |rq.cells| && InColumn(rq, cf, q, rq.cells[i]) && ColumnStart(rq, cf, q, lo) && lo <= i
    requires Taken(rq, reached, cf, q, lo, i) && p == p0 + Span(rq.cells, lo, i)
    modifies strategy`st
    ensures Fed(rq, p', strategy.st) && p' == p0 + Span(rq.cells, lo, i + 1)
    ensures dropped <==> rq.cells[i] !in reached
  {
    var c := rq.cells[i];
    assert c in rq.cells;
    FedSuffices(rq, cf, q, lo, i, p0, p);
    ReachedNext(rq, reached, cf, q, lo, i, p);
    SpanNext(rq.cells, lo, i);
    dropped, p' := FeedCell(rq, strategy, c, p);
  }

  /** One turn of the loop over a column; `go` says whether to go on. */
  method ColumnTurn(rq: Request, strategy: DefaultCompactStrategy, cf: Bytes, q: Bytes, i: nat, versionNum: nat,
                    hits: seq<Cell>, ghost reached: set<Cell>, ghost lo: nat, ghost p0: set<Cell>, ghost p: set<Cell>)
    returns (go: bool, versionNum': nat, hits': seq<Cell>, ghost p': set<Cell>)
    requires Readable(rq) && strategy.schema == rq.env.schema && Fed(rq, p, strategy.st)
    requires p0 <= All(rq) && OpenersFed(rq, cf, p0) && BehindColumn(rq, cf, q, p0) && reached == ReachedCells(rq)
    requires i < |rq.cells| && InColumn(rq, cf, q, rq.cells[i]) && ColumnInv(rq, reached, cf, q, lo, i, versionNum, hits)
    requires p == p0 + Span(rq.cells, lo, i)
    modifies strategy`st
    ensures Fed(rq, p', strategy.st) && p' == p0 + Span(rq.cells, lo, i + 1)
    ensures go ==> ColumnInv(rq, reached, cf, q, lo, i + 1, versionNum', hits')
    ensures !go ==> hits' == hits && NothingLeft(rq, reached, cf, q, i)
  {
    versionNum', hits', go := versionNum, hits, false;
    var c := rq.cells[i];
    var dropped;
    dropped, p' := FeedNext(rq, strategy, cf, q, i, reached, lo, p0, p);
    if dropped {
      SkippedEnds(rq, reached, cf, q, i);
      return;
    }
    if rq.tsStart > c.ts {
      OldEnds(rq, reached, cf, q, i);
      return;
    }
    if rq.tsEnd < c.ts {
      TurnPast(rq, reached, cf, q, lo, i, versionNum, hits);
      go := true;
      return;
    }
    TurnTake(rq, reached, cf, q, lo, i, versionNum, hits);
    versionNum' := versionNum + 1;
    if versionNum' > rq.maxVersions {
      return;
    }
    hits' := hits + [c];
    go := true;
  }

  /** What the loop over a column keeps, besides the state of the strategy. */
  ghost predicate ColumnLoop(rq: Request, reached: set<Cell>, cf: Bytes, q: Bytes, lo: nat, i: nat, versionNum: nat,
                             hits: seq<Cell>, p0: set<Cell>, p: set<Cell>, go: bool) {
    && ColumnInv(rq, reached, cf, q, lo, i, versionNum, hits)
    && p0 <= p && (forall e :: e in p ==> e in p0 || InColumn(rq, cf, q, e))
    && (go ==> p == p0 + Span(rq.cells, lo, i))
    && (!go ==> NothingLeft(rq, reached, cf, q, i))
  }

  method ColumnStep(rq: Request, strategy: DefaultCompactStrategy, cf: Bytes, q: Bytes, i: nat, versionNum: nat,
                    hits: seq<Cell>, ghost reached: set<Cell>, lo: nat, ghost p0: set<Cell>, ghost p: set<Cell>)
    returns (go: bool, i': nat, versionNum': nat, hits': seq<Cell>, ghost p': set<Cell>)
    requires Readable(rq) && strategy.schema == rq.env.schema && Fed(rq, p, strategy.st)
    requires p0 <= All(rq) && OpenersFed(rq, cf, p0) && BehindColumn(rq, cf, q, p0) && reached == ReachedCells(rq)
    requires lo == SeekFrom(rq.cells, SeekKey(rq.row, cf, q), 0) && i < |rq.cells|
    requires ColumnLoop(rq, reached, cf, q, lo, i, versionNum, hits, p0, p, true)
    modifies strategy`st
    ensures Fed(rq, p', strategy.st)
    ensures ColumnLoop(rq, reached, cf, q, lo, i', versionNum', hits', p0, p', go)
    ensures go ==> i' == i + 1
  {
    go, i', versionNum', hits', p' := false, i, versionNum, hits, p;
    if !InColumn(rq, cf, q, rq.cells[i]) {
      ColumnOver(rq, cf, q, lo, i);
    } else {
      SpanNext(rq.cells, lo, i);
      var v, h;
      go, v, h, p' := ColumnTurn(rq, strategy, cf, q, i, versionNum, hits, reached, lo, p0, p);
      if go {
        i', versionNum', hits' := i + 1, v, h;
      }
    }
  }

  lemma StartColumn(rq: Request, reached: set<Cell>, cf: Bytes, q: Bytes, lo: nat, p0: set<Cell>)
    requires ColumnStart(rq, cf, q, lo)
    ensures ColumnLoop(rq, reached, cf, q, lo, lo, 0, [], p0, p0, true)
  {
    assert Span(rq.cells, lo, lo) == {} && Counted(rq, lo, lo) == {};
  }

  /** The loop over one column. */
  method ReadColumn(rq: Request, strategy: DefaultCompactStrategy, cf: Bytes, q: Bytes, ghost reached: set<Cell>,
                    ghost p0: set<Cell>)
    returns (hits: seq<Cell>, ghost p: set<Cell>)
    requires Readable(rq) && strategy.schema == rq.env.schema && Fed(rq, p0, strategy.st)
    requires OpenersFed(rq, cf, p0) && BehindColumn(rq, cf, q, p0) && reached == ReachedCells(rq)
    modifies strategy`st
    ensures Fed(rq, p, strategy.st) && p0 <= p
    ensures forall e :: e in p ==> e in p0 || InColumn(rq, cf, q, e)
    ensures Sorted(hits)
    ensures forall c :: c in hits <==> InColumn(rq, cf, q, c) && SeekWants(rq, reached, c)
  {
    var lo := SeekFrom(rq.cells, SeekKey(rq.row, cf, q), 0);
    SeekFindsColumn(rq, cf, q, lo);
    StartColumn(rq, reached, cf, q, lo, p0);
    var i: nat, versionNum: nat, go := lo, 0, true;
    hits := [];
    p := p0;
    while go && i < |rq.cells|
      invariant Fed(rq, p, strategy.st)
      invariant ColumnLoop(rq, reached, cf, q, lo, i, versionNum, hits, p0, p, go)
      decreases go, |rq.cells| - i
    {
      go, i, versionNum, hits, p := ColumnStep(rq, strategy, cf, q, i, versionNum, hits, reached, lo, p0, p);
    }
    FinishColumn(rq, reached, cf, q, lo, i, versionNum, hits);
  }

  // ---------- one family, one row ----------

  predicate Ascending(names: seq<Bytes>) {
    forall i, j :: 0 <= i < j < |names| ==> LexLt(names[i], names[j])
  }

  /** The request lists families and qualifiers as a map of sets iterates over them. */
  predicate WellListed(rq: Request) {
    && (forall i, j :: 0 <= i < j < |rq.columns| ==> LexLt(rq.columns[i].0, rq.columns[j].0))
    && (forall i :: 0 <= i < |rq.columns| ==> rq.columns[i].1 != [] && Ascending(rq.columns[i].1))
  }

  /** Nothing fed so far comes after the family `cf`. */
  ghost predicate BehindFamily(rq: Request, cf: Bytes, p: set<Cell>) {
    forall c :: c in All(rq) && c.row == rq.row && (c.cf == cf || LexLt(cf, c.cf)) ==> Behind(p, c)
  }

  lemma SeekFindsFamily(rq: Request, cf: Bytes, pos: nat)
    requires Readable(rq) && pos == SeekFrom(rq.cells, SeekKey(rq.row, cf, []), 0)
    ensures forall j :: 0 <= j < pos ==> !InFamily(rq, cf, rq.cells[j])
    ensures pos < |rq.cells| && !InFamily(rq, cf, rq.cells[pos]) ==>
              forall j :: 0 <= j < |rq.cells| ==> !InFamily(rq, cf, rq.cells[j])
    ensures pos < |rq.cells| && !LexLt(rq.row, rq.cells[pos].row) && !LexLt(cf, rq.cells[pos].cf) ==>
              InFamily(rq, cf, rq.cells[pos])
  {
    var key := SeekKey(rq.row, cf, []);
    LexAsym(rq.row, rq.row);
    LexAsym(cf, cf);
    forall j | 0 <= j < pos ensures !InFamily(rq, cf, rq.cells[j]) {
      assert rq.cells[j] in rq.cells;
    }
    if pos < |rq.cells| {
      var a := rq.cells[pos];
      LexTotal(a.row, rq.row);
      LexTotal(a.cf, cf);
      if !InFamily(rq, cf, a) {
        forall j | pos < j < |rq.cells| ensures !InFamily(rq, cf, rq.cells[j]) {
          var b := rq.cells[j];
          LexAsym(a.row, b.row);
          LexAsym(a.cf, b.cf);
        }
      }
    }
  }

  lemma FirstOpensFamily(rq: Request, cf: Bytes, pos: nat, p: set<Cell>)
    requires Readable(rq) && pos < |rq.cells| && InFamily(rq, cf, rq.cells[pos])
    requires forall j :: 0 <= j < pos ==> !InFamily(rq, cf, rq.cells[j])
    requires RowFed(rq, p) && BehindFamily(rq, cf, p) && p <= All(rq)
    ensures forall c :: c in All(rq) && InFamily(rq, cf, c) ==> c == rq.cells[pos] || Before(rq.cells[pos], c)
    ensures Behind(p, rq.cells[pos]) && Feedable(rq, p, rq.cells[pos])
    ensures OpenersFed(rq, cf, p + {rq.cells[pos]})
  {
    var x := rq.cells[pos];
    assert x in rq.cells;
    forall c | c in All(rq) && InFamily(rq, cf, c) ensures c == x || Before(x, c) {
      var j :| 0 <= j < |rq.cells| && rq.cells[j] == c;
    }
    forall d | d in All(rq) && InFamily(rq, cf, d) ensures !Before(d, x) {
      BeforeAsym(d, x);
    }
    assert OpensCol(All(rq), x);
  }

  /** The cells of the first `k` listed qualifiers of a family, as far as they are wanted. */
  ghost predicate FamilyHits(rq: Request, reached: set<Cell>, cf: Bytes, quals: seq<Bytes>, hits: seq<Cell>) {
    && Sorted(hits)
    && forall c :: c in hits <==> InFamily(rq, cf, c) && c.qual in quals && SeekWants(rq, reached, c)
  }

  lemma NextColumnBehind(rq: Request, cf: Bytes, quals: seq<Bytes>, k: nat, x: Cell, p0: set<Cell>, p: set<Cell>)
    requires Ascending(quals) && k < |quals| && BehindFamily(rq, cf, p0)
    requires forall c :: c in All(rq) && InFamily(rq, cf, c) ==> c == x || Before(x, c)
    requires forall e :: e in p ==> e in p0 || e == x || (InFamily(rq, cf, e) && e.qual in quals[..k])
    ensures BehindColumn(rq, cf, quals[k], p)
  {
    forall c, e | c in All(rq) && InColumn(rq, cf, quals[k], c) && e in p ensures e == c || Before(e, c) {
      assert Behind(p0, c);
      if e !in p0 && e != x {
        var i :| 0 <= i < k && quals[..k][i] == e.qual;
        assert LexLt(quals[i], quals[k]);
      }
    }
  }

  lemma JoinColumns(rq: Request, reached: set<Cell>, cf: Bytes, quals: seq<Bytes>, k: nat, hits: seq<Cell>, more: seq<Cell>)
    requires Ascending(quals) && k < |quals| && FamilyHits(rq, reached, cf, quals[..k], hits)
    requires Sorted(more) && forall c :: c in more <==> InColumn(rq, cf, quals[k], c) && SeekWants(rq, reached, c)
    ensures FamilyHits(rq, reached, cf, quals[..k + 1], hits + more)
  {
    forall e, c | e in hits && c in more ensures Before(e, c) {
      var i :| 0 <= i < k && quals[..k][i] == e.qual;
      assert LexLt(quals[i], quals[k]);
    }
    assert quals[..k + 1] == quals[..k] + [quals[k]];
    assert forall c :: c in hits + more <==> c in hits || c in more;
    SortedConcat(hits, more);
  }

  lemma SortedConcat(a: seq<Cell>, b: seq<Cell>)
    requires Sorted(a) && Sorted(b) && forall e, c :: e in a && c in b ==> Before(e, c)
    ensures Sorted(a + b)
  {
  }

  /** What the loop over the listed qualifiers keeps; `x` is the family's first cell. */
  ghost predicate FamilyLoop(rq: Request, reached: set<Cell>, cf: Bytes, quals: seq<Bytes>, k: nat, x: Cell,
                             p0: set<Cell>, p: set<Cell>, hits: seq<Cell>) {
    && k <= |quals| && p0 + {x} <= p
    && (forall e :: e in p ==> e in p0 || e == x || (InFamily(rq, cf, e) && e.qual in quals[..k]))
    && FamilyHits(rq, reached, cf, quals[..k], hits)
  }

  lemma FamilyNext(rq: Request, reached: set<Cell>, cf: Bytes, quals: seq<Bytes>, k: nat, x: Cell,
                   p0: set<Cell>, p: set<Cell>, hits: seq<Cell>, p': set<Cell>, more: seq<Cell>)
    requires FamilyLoop(rq, reached, cf, quals, k, x, p0, p, hits) && Ascending(quals) && k < |quals|
    requires p <= p' && forall e :: e in p' ==> e in p || InColumn(rq, cf, quals[k], e)
    requires Sorted(more) && forall c :: c in more <==> InColumn(rq, cf, quals[k], c) && SeekWants(rq, reached, c)
    ensures FamilyLoop(rq, reached, cf, quals, k + 1, x, p0, p', hits + more)
  {
    JoinColumns(rq, reached, cf, quals, k, hits, more);
    assert quals[..k + 1] == quals[..k] + [quals[k]];
  }

  lemma OpenersStayFed(rq: Request, cf: Bytes, p: set<Cell>, p': set<Cell>)
    requires OpenersFed(rq, cf, p) && p <= p'
    ensures OpenersFed(rq, cf, p')
  {
  }

  method ReadListed(rq: Request, strategy: DefaultCompactStrategy, cf: Bytes, quals: seq<Bytes>, ghost x: Cell,
                    ghost reached: set<Cell>, ghost p0: set<Cell>, ghost p1: set<Cell>)
    returns (hits: seq<Cell>, ghost p: set<Cell>)
    requires Readable(rq) && strategy.schema == rq.env.schema && Fed(rq, p1, strategy.st) && p1 == p0 + {x}
    requires Ascending(quals) && OpenersFed(rq, cf, p1) && BehindFamily(rq, cf, p0) && reached == ReachedCells(rq)
    requires forall c :: c in All(rq) && InFamily(rq, cf, c) ==> c == x || Before(x, c)
    modifies strategy`st
    ensures Fed(rq, p, strategy.st) && FamilyLoop(rq, reached, cf, quals, |quals|, x, p0, p, hits)
  {
    hits, p := [], p1;
    var k: nat := 0;
    assert FamilyLoop(rq, reached, cf, quals, 0, x, p0, p, []);
    while k < |quals|
      invariant Fed(rq, p, strategy.st) && FamilyLoop(rq, reached, cf, quals, k, x, p0, p, hits)
    {
      NextColumnBehind(rq, cf, quals, k, x, p0, p);
      OpenersStayFed(rq, cf, p1, p);
      var more;
      ghost var p';
      more, p' := ReadColumn(rq, strategy, cf, quals[k], reached, p);
      FamilyNext(rq, reached, cf, quals, k, x, p0, p, hits, p', more);
      hits, p, k := hits + more, p', k + 1;
    }
  }

  /** The columns of one family. */
  method ReadFamily(rq: Request, strategy: DefaultCompactStrategy, cf: Bytes, quals: seq<Bytes>, ghost reached: set<Cell>,
                    ghost p0: set<Cell>)
    returns (hits: seq<Cell>, ghost p: set<Cell>)
    requires Readable(rq) && strategy.schema == rq.env.schema && Fed(rq, p0, strategy.st)
    requires Ascending(quals) && RowFed(rq, p0) && BehindFamily(rq, cf, p0) && reached == ReachedCells(rq)
    modifies strategy`st
    ensures Fed(rq, p, strategy.st) && p0 <= p && forall e :: e in p ==> e in p0 || InFamily(rq, cf, e)
    ensures FamilyHits(rq, reached, cf, quals, hits)
  {
    hits, p := [], p0;
    var pos := SeekFrom(rq.cells, SeekKey(rq.row, cf, []), 0);
    SeekFindsFamily(rq, cf, pos);
    if pos >= |rq.cells| || LexLt(rq.row, rq.cells[pos].row) || LexLt(cf, rq.cells[pos].cf) {
      LexAsym(rq.row, rq.row);
      LexAsym(cf, cf);
      NoFamily(rq, reached, cf, quals);
      return;
    }
    var x := rq.cells[pos];
    assert x in rq.cells;
    FirstOpensFamily(rq, cf, pos, p0);
    var dropped;
    dropped, p := FeedCell(rq, strategy, x, p);
    hits, p := ReadListed(rq, strategy, cf, quals, x, reached, p0, p);
    assert quals[..|quals|] == quals;
  }

  lemma NoFamily(rq: Request, reached: set<Cell>, cf: Bytes, quals: seq<Bytes>)
    requires reached == ReachedCells(rq)
    requires forall j :: 0 <= j < |rq.cells| ==> !InFamily(rq, cf, rq.cells[j])
    ensures FamilyHits(rq, reached, cf, quals, [])
  {
  }

  // ---------- the whole read ----------

  ghost predicate Requested(rq: Request, k: nat, c: Cell)
    requires k <= |rq.columns|
  {
    c.row == rq.row && exists i :: 0 <= i < k && rq.columns[i].0 == c.cf && c.qual in rq.columns[i].1
  }

  /** The wanted cells of the first `k` listed families. */
  ghost predicate RowHits(rq: Request, reached: set<Cell>, k: nat, hits: seq<Cell>) {
    && k <= |rq.columns| && Sorted(hits)
    && forall c :: c in hits <==> Requested(rq, k, c) && SeekWants(rq, reached, c)
  }

  lemma JoinFamilies(rq: Request, reached: set<Cell>, k: nat, hits: seq<Cell>, more: seq<Cell>)
    requires WellListed(rq) && k < |rq.columns| && RowHits(rq, reached, k, hits)
    requires FamilyHits(rq, reached, rq.columns[k].0, rq.columns[k].1, more)
    ensures RowHits(rq, reached, k + 1, hits + more)
  {
    forall e, c | e in hits && c in more ensures Before(e, c) {
      var i :| 0 <= i < k && rq.columns[i].0 == e.cf && e.qual in rq.columns[i].1;
      assert LexLt(rq.columns[i].0, rq.columns[k].0);
    }
    SortedConcat(hits, more);
    forall c ensures c in hits + more <==> Requested(rq, k + 1, c) && SeekWants(rq, reached, c) {
      if Requested(rq, k, c) {
        var i :| 0 <= i < k && rq.columns[i].0 == c.cf && c.qual in rq.columns[i].1;
        assert Requested(rq, k + 1, c);
      }
      if Requested(rq, k + 1, c) {
        var i :| 0 <= i < k + 1 && rq.columns[i].0 == c.cf && c.qual in rq.columns[i].1;
        assert i == k || Requested(rq, k, c);
      }
    }
  }

  /** What the loop over the families keeps. */
  ghost predicate RowLoop(rq: Request, k: nat, x: Cell, p: set<Cell>) {
    && k <= |rq.columns| && x in p && x.row == rq.row
    && (forall e :: e in p ==> e == x || (e.row == rq.row && exists i :: 0 <= i < k && rq.columns[i].0 == e.cf))
    && (forall c :: c in All(rq) && c.row == rq.row ==> c == x || Before(x, c))
  }

  lemma NextFamilyBehind(rq: Request, k: nat, x: Cell, p: set<Cell>)
    requires WellListed(rq) && RowLoop(rq, k, x, p) && k < |rq.columns| && p <= All(rq)
    ensures BehindFamily(rq, rq.columns[k].0, p)
    ensures RowFed(rq, p)
  {
    var cf := rq.columns[k].0;
    forall c, e | c in All(rq) && c.row == rq.row && (c.cf == cf || LexLt(cf, c.cf)) && e in p
      ensures e == c || Before(e, c)
    {
      if e != x {
        var i :| 0 <= i < k && rq.columns[i].0 == e.cf;
        assert LexLt(rq.columns[i].0, cf);
        if c.cf != cf { LexTrans(e.cf, cf, c.cf); }
      }
    }
    forall m | m in All(rq) && m.row == rq.row && Opens(All(rq), m) ensures m in p {
      assert m == x || Before(x, m);
    }
  }

  /** LowLevelSeek returns exactly the wanted cells of the requested columns, in key
      order; it reports a missing row exactly when the row has no cell. */
  method LowLevelSeek(rq: Request) returns (found: bool, hits: seq<Cell>)
    requires Readable(rq) && WellListed(rq)
    ensures found <==> exists c :: c in rq.cells && c.row == rq.row
    ensures RowHits(rq, ReachedCells(rq), |rq.columns|, hits)
  {
    ghost var reached := ReachedCells(rq);
    hits := [];
    found := false;
    var pos := SeekFrom(rq.cells, SeekKey(rq.row, [], []), 0);
    SeekFindsRow(rq, pos);
    if pos >= |rq.cells| || LexLt(rq.row, rq.cells[pos].row) {
      LexAsym(rq.row, rq.row);
      NoRow(rq, reached);
      return;
    }
    found := true;
    var strategy := new DefaultCompactStrategy(rq.env.schema);
    FreshInv(rq.env);
    var x := rq.cells[pos];
    assert x in rq.cells;
    FirstOpensRow(rq, x);
    ghost var p: set<Cell> := {};
    var dropped;
    dropped, p := FeedCell(rq, strategy, x, p);
    hits := ReadFamilies(rq, strategy, x, reached, p);
  }

  lemma FirstOpensRow(rq: Request, x: Cell)
    requires x.row == rq.row && forall c :: c in All(rq) && c.row == rq.row ==> c == x || Before(x, c)
    ensures Opens(All(rq), x)
  {
    forall c | c in All(rq) && c.row == rq.row ensures !Before(c, x) {
      BeforeAsym(c, x);
    }
  }

  method ReadFamilies(rq: Request, strategy: DefaultCompactStrategy, ghost x: Cell, ghost reached: set<Cell>,
                      ghost p0: set<Cell>)
    returns (hits: seq<Cell>)
    requires Readable(rq) && WellListed(rq) && strategy.schema == rq.env.schema && reached == ReachedCells(rq)
    requires Fed(rq, p0, strategy.st) && RowLoop(rq, 0, x, p0)
    modifies strategy`st
    ensures RowHits(rq, reached, |rq.columns|, hits)
  {
    hits := [];
    ghost var p := p0;
    var k: nat := 0;
    while k < |rq.columns|
      invariant k <= |rq.columns| && Fed(rq, p, strategy.st)
      invariant RowLoop(rq, k, x, p) && RowHits(rq, reached, k, hits)
    {
      NextFamilyBehind(rq, k, x, p);
      var more;
      ghost var p';
      more, p' := ReadFamily(rq, strategy, rq.columns[k].0, rq.columns[k].1, reached, p);
      JoinFamilies(rq, reached, k, hits, more);
      RowNext(rq, k, x, p, p');
      hits, p, k := hits + more, p', k + 1;
    }
  }

  lemma RowNext(rq: Request, k: nat, x: Cell, p: set<Cell>, p': set<Cell>)
    requires RowLoop(rq, k, x, p) && k < |rq.columns| && p <= p'
    requires forall e :: e in p' ==> e in p || InFamily(rq, rq.columns[k].0, e)
    ensures RowLoop(rq, k + 1, x, p')
  {
    forall e | e in p' && e != x ensures e.row == rq.row && exists i :: 0 <= i < k + 1 && rq.columns[i].0 == e.cf {
      if e in p {
        var i :| 0 <= i < k && rq.columns[i].0 == e.cf;
      } else {
        assert rq.columns[k].0 == e.cf;
      }
    }
  }

  lemma SeekFindsRow(rq: Request, pos: nat)
    requires Readable(rq) && pos == SeekFrom(rq.cells, SeekKey(rq.row, [], []), 0)
    ensures forall j :: 0 <= j < pos ==> rq.cells[j].row != rq.row
    ensures pos < |rq.cells| && !LexLt(rq.row, rq.cells[pos].row) ==> rq.cells[pos].row == rq.row
    ensures pos < |rq.cells| ==>
              forall c :: c in All(rq) && c.row == rq.row ==> c == rq.cells[pos] || Before(rq.cells[pos], c)
    ensures pos < |rq.cells| && LexLt(rq.row, rq.cells[pos].row) ==>
              forall j :: 0 <= j < |rq.cells| ==> rq.cells[j].row != rq.row
  {
    var key := SeekKey(rq.row, [], []);
    LexAsym(rq.row, rq.row);
    forall j | 0 <= j < pos ensures rq.cells[j].row != rq.row {
      assert rq.cells[j] in rq.cells;
    }
    if pos < |rq.cells| {
      var a := rq.cells[pos];
      LexTotal(a.row, rq.row);
      forall c | c in All(rq) && c.row == rq.row ensures c == a || Before(a, c) {
        var j :| 0 <= j < |rq.cells| && rq.cells[j] == c;
      }
      if LexLt(rq.row, a.row) {
        forall j | pos < j < |rq.cells| ensures rq.cells[j].row != rq.row {
          LexAsym(a.row, rq.cells[j].row);
        }
      }
    }
  }

  lemma NoRow(rq: Request, reached: set<Cell>)
    requires reached == ReachedCells(rq)
    requires forall j :: 0 <= j < |rq.cells| ==> rq.cells[j].row != rq.row
    ensures RowHits(rq, reached, |rq.columns|, [])
    ensures !exists c :: c in rq.cells && c.row == rq.row
  {
  }
}

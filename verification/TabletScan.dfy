/** TabletIO::LowLevelScan: one pass over a range of rows, cut into batches by size and
    count limits, with version and qualifier limits of its own. */
module TabletScan {
  import opened Bytes
  import opened Cells
  import opened Strategy
  import opened AtomicMerge

  /** ScanOptions without the batch limits. */
  datatype Options = Options(
    maxVersions: nat,
    maxQualifiers: nat,
    tsStart: int,
    tsEnd: int,
    columns: map<Bytes, set<Bytes>>,
    families: set<Bytes>)

  /** One scan: the cells its iterator delivers, and what was asked for.  Cells before
      `start` are passed over; an empty `end` is no limit. */
  datatype Scan = Scan(env: Env, cells: seq<Cell>, opts: Options, start: Cell, end: Bytes)

  /** Where a session stands between two cells. */
  datatype Cursor = Cursor(pos: nat, lastKey: Bytes, lastCol: Bytes, lastQual: Bytes, versionNum: nat, quNum: nat)

  /** A new scan, its iterator placed at `from` by InitScanIterator.  A single scan starts
      with `quNum` one; for a session nothing sets it. */
  function NewCursor(from: nat, quNum: nat): Cursor {
    Cursor(from, [], [], [], 1, quNum)
  }

  /** A cell accepted into the row buffer: which one, and the value it is shown with. */
  datatype Hit = Hit(at: nat, value: Bytes)

  datatype Out = Out(row: Bytes, cf: Bytes, qual: Bytes, ts: nat, value: Bytes)

  /** A column holding counters holds only eight-byte counters. */
  ghost predicate CounterColumns(cells: seq<Cell>) {
    forall a, c :: a in cells && c in cells && a.kind.IsAtomic() && SameCell(a, c) ==>
                   (c.kind == a.kind || c.kind.Value? ==> Operand(a.kind, c.value))
  }

  predicate AtEnd(s: Scan, pos: nat)
    requires pos < |s.cells|
  {
    s.end != [] && !LexLt(s.cells[pos].row, s.end)
  }

  predicate Finished(s: Scan, pos: nat) {
    pos >= |s.cells| || AtEnd(s, pos)
  }

  predicate Skipped(s: Scan, c: Cell) {
    s.opts.families != {} && c.cf !in s.opts.families && !c.kind.Del?
  }

  predicate SameColumn(x: Cursor, c: Cell) {
    x.lastKey == c.row && x.lastCol == c.cf && x.lastQual == c.qual
  }

  /** The value ScanMergedValue computes at an atomic cell. */
  ghost function MergedValue(s: Scan, st: State, pos: nat): Bytes
    requires pos < |s.cells|
  {
    var c := s.cells[pos];
    var vals := [c.value] + Collect(s.cells, pos + 1, st, true, MAX_SEQUENCE, c.ts).0;
    if c.kind.IsAtomic() && Operands(c.kind, vals) then Fold(c.kind, vals) else c.value
  }

  /** One turn of the loop, before the end of the range: the strategy's and the session's
      next state, and the cell accepted, if any.  An atomic operation that opens its
      column is merged with the older ones; a further version is shown as it is. */
  ghost function Step(s: Scan, st: State, x: Cursor): (State, Cursor, seq<Hit>)
    requires x.pos < |s.cells|
  {
    var c := s.cells[x.pos];
    var next := x.(pos := x.pos + 1);
    if Skipped(s, c) then (st, next, [])
    else
      var (st', dropped) := ScanStep(s.env, st, c);
      if dropped then (st', next, [])
      else if Before(c, s.start) then
        (st', if SameColumn(x, c) then next.(versionNum := x.versionNum + 1)
              else next.(lastKey := c.row, lastCol := c.cf, lastQual := c.qual, versionNum := 1), [])
      else if SameColumn(x, c) then
        (st', next.(versionNum := x.versionNum + 1),
         if x.versionNum + 1 > s.opts.maxVersions then [] else [Hit(x.pos, c.value)])
      else if x.lastKey == c.row && x.lastCol == c.cf && x.quNum + 1 > s.opts.maxQualifiers then
        (st', next.(quNum := x.quNum + 1), [])
      else
        var quNum := if x.lastKey == c.row && x.lastCol == c.cf then x.quNum + 1 else 1;
        if c.kind.IsAtomic() then
          (st', Cursor(Collect(s.cells, x.pos + 1, st', true, MAX_SEQUENCE, c.ts).1, c.row, c.cf, c.qual, 1, quNum),
           [Hit(x.pos, MergedValue(s, st', x.pos))])
        else (st', Cursor(x.pos + 1, c.row, c.cf, c.qual, 1, quNum), [Hit(x.pos, c.value)])
  }

  lemma {:induction false} CollectBounds(cells: seq<Cell>, i: nat, st: State, usePut: bool, snapshot: nat, lastTs: int)
    requires i <= |cells|
    ensures i <= Collect(cells, i, st, usePut, snapshot, lastTs).1 <= |cells|
    decreases |cells| - i
  {
    if i < |cells| { CollectBounds(cells, i + 1, st, usePut, snapshot, cells[i].ts); }
  }

  lemma StepAdvances(s: Scan, st: State, x: Cursor)
    requires x.pos < |s.cells|
    ensures x.pos < Step(s, st, x).1.pos <= |s.cells|
  {
    var c := s.cells[x.pos];
    var st' := ScanStep(s.env, st, c).0;
    CollectBounds(s.cells, x.pos + 1, st', true, MAX_SEQUENCE, c.ts);
  }

  /** Every cell the scan still accepts from here on. */
  ghost function Accepted(s: Scan, st: State, x: Cursor): seq<Hit>
    decreases |s.cells| - x.pos
  {
    if Finished(s, x.pos) then []
    else
      StepAdvances(s, st, x);
      var (st', x', hits) := Step(s, st, x);
      hits + Accepted(s, st', x')
  }

  // ---------- the row buffer ----------

  /** ProcessRowBuffer's test on one buffered cell: the columns asked for and the time range. */
  predicate Wanted(o: Options, c: Cell) {
    && (o.columns == map[] ||
        (c.cf in o.columns && (o.columns[c.cf] == {} || c.qual in o.columns[c.cf])))
    && o.tsStart <= c.ts <= o.tsEnd
  }

  function Show(s: Scan, h: Hit): Out
    requires h.at < |s.cells|
  {
    var c := s.cells[h.at];
    Out(c.row, c.cf, c.qual, c.ts, h.value)
  }

  predicate InRange(s: Scan, hits: seq<Hit>) {
    forall h :: h in hits ==> h.at < |s.cells|
  }

  /** What reaches the client of a list of accepted cells. */
  function Shown(s: Scan, hits: seq<Hit>): seq<Out>
    requires InRange(s, hits)
  {
    if hits == [] then []
    else (if Wanted(s.opts, s.cells[hits[0].at]) then [Show(s, hits[0])] else []) + Shown(s, hits[1..])
  }

  lemma {:induction false} ShownConcat(s: Scan, a: seq<Hit>, b: seq<Hit>)
    requires InRange(s, a) && InRange(s, b)
    ensures InRange(s, a + b)
    ensures Shown(s, a + b) == Shown(s, a) + Shown(s, b)
  {
    if a == [] {
      assert a + b == b;
    } else {
      assert (a + b)[1..] == a[1..] + b;
      ShownConcat(s, a[1..], b);
    }
  }

  /** sizeof(int64_t), the share of the timestamp in a reply's size. */
  const TS_SIZE := 8

  /** A reply's size, as the limit on it is counted. */
  ghost function Size(values: seq<Out>): nat {
    if values == [] then 0 else Size(values[..|values| - 1]) + OutSize(values[|values| - 1])
  }

  function OutSize(o: Out): nat {
    |o.row| + |o.cf| + |o.qual| + TS_SIZE + |o.value|
  }

  lemma SizeSnoc(values: seq<Out>, o: Out)
    ensures Size(values + [o]) == Size(values) + OutSize(o)
  {
    assert (values + [o])[..|values|] == values;
  }

  method ProcessRowBuffer(s: Scan, rowBuf: seq<Hit>, values: seq<Out>, bufferSize: nat, numberLimit: nat)
    returns (values': seq<Out>, bufferSize': nat, numberLimit': nat)
    requires InRange(s, rowBuf) && bufferSize == Size(values) && numberLimit == |values|
    ensures values' == values + Shown(s, rowBuf)
    ensures bufferSize' == Size(values') && numberLimit' == |values'|
  {
    values', bufferSize', numberLimit' := values, bufferSize, numberLimit;
    var i := 0;
    assert rowBuf[0..] == rowBuf;
    while i < |rowBuf|
      invariant 0 <= i <= |rowBuf|
      invariant values' + Shown(s, rowBuf[i..]) == values + Shown(s, rowBuf)
      invariant bufferSize' == Size(values') && numberLimit' == |values'|
    {
      assert rowBuf[i] in rowBuf;
      assert rowBuf[i..][1..] == rowBuf[i + 1..];
      var c := s.cells[rowBuf[i].at];
      if Wanted(s.opts, c) {
        numberLimit' := numberLimit' + 1;
        bufferSize' := bufferSize' + |c.row| + |c.cf| + |c.qual| + TS_SIZE + |rowBuf[i].value|;
        SizeSnoc(values', Show(s, rowBuf[i]));
        values' := values' + [Show(s, rowBuf[i])];
      }
      i := i + 1;
    }
  }

  // ---------- one batch ----------

  /** The part of ScanContext that LowLevelScan uses. */
  class ScanContext {
    const strategy: DefaultCompactStrategy
    var cursor: Cursor

    constructor (schema: Schema, from: nat, quNum: nat)
      ensures fresh(strategy) && strategy.schema == schema && strategy.st == Fresh && cursor == NewCursor(from, quNum)
    {
      strategy := new DefaultCompactStrategy(schema);
      cursor := NewCursor(from, quNum);
    }
  }

  lemma StandsAfterScan(env: Env, st: State, c: Cell)
    ensures !ScanStep(env, st, c).1 ==> StandsAt(ScanStep(env, st, c).0, c)
  {
  }

  lemma ColumnOperands(cells: seq<Cell>, st: State, pos: nat)
    requires pos < |cells| && CounterColumns(cells) && StandsAt(st, cells[pos]) && cells[pos].kind.IsAtomic()
    ensures GoodOperands(cells, st)
  {
    assert cells[pos] in cells;
  }

  lemma ScanMerges(s: Scan, st: State, pos: nat)
    requires pos < |s.cells| && StandsAt(st, s.cells[pos]) && s.cells[pos].kind.IsAtomic() && GoodOperands(s.cells, st)
    ensures MergedValue(s, st, pos) == RunValue(s.cells, pos, st, true, MAX_SEQUENCE)
  {
    CollectOperands(s.cells, pos + 1, st, true, MAX_SEQUENCE, s.cells[pos].ts);
    assert s.cells[pos] in s.cells;
  }

  /** One turn of the loop, on the context. */
  method ScanOne(s: Scan, ctx: ScanContext) returns (hits: seq<Hit>)
    requires s.env.schema == ctx.strategy.schema && CounterColumns(s.cells)
    requires ctx.cursor.pos < |s.cells|
    modifies ctx`cursor, ctx.strategy`st
    ensures (ctx.strategy.st, ctx.cursor, hits) == Step(s, old(ctx.strategy.st), old(ctx.cursor))
  {
    var x := ctx.cursor;
    var c := s.cells[x.pos];
    hits := [];
    ctx.cursor := x.(pos := x.pos + 1);
    if s.opts.families != {} && c.cf !in s.opts.families && !c.kind.Del? {
      return;
    }
    StandsAfterScan(s.env, ctx.strategy.st, c);
    var dropped := ctx.strategy.ScanDrop(c, s.env.now);
    if dropped {
      return;
    }
    if Before(c, s.start) {
      if SameColumn(x, c) {
        ctx.cursor := ctx.cursor.(versionNum := x.versionNum + 1);
      } else {
        ctx.cursor := ctx.cursor.(lastKey := c.row, lastCol := c.cf, lastQual := c.qual, versionNum := 1);
      }
      return;
    }
    if SameColumn(x, c) {
      ctx.cursor := ctx.cursor.(versionNum := x.versionNum + 1);
      if ctx.cursor.versionNum > s.opts.maxVersions {
        return;
      }
      hits := [Hit(x.pos, c.value)];
      return;
    }
    if x.lastKey == c.row && x.lastCol == c.cf {
      ctx.cursor := ctx.cursor.(quNum := x.quNum + 1);
      if ctx.cursor.quNum > s.opts.maxQualifiers {
        return;
      }
    } else {
      ctx.cursor := ctx.cursor.(quNum := 1);
    }
    ctx.cursor := ctx.cursor.(lastKey := c.row, lastCol := c.cf, lastQual := c.qual, versionNum := 1);
    if c.kind.IsAtomic() {
      ColumnOperands(s.cells, ctx.strategy.st, x.pos);
      ScanMerges(s, ctx.strategy.st, x.pos);
      var merged, value, next, num := InternalMergeProcess(s.cells, x.pos, ctx.strategy.st, true, MAX_SEQUENCE);
      ctx.cursor := ctx.cursor.(pos := next);
      hits := [Hit(x.pos, value)];
    } else {
      hits := [Hit(x.pos, c.value)];
    }
  }

  lemma {:induction false} AcceptedInRange(s: Scan, st: State, x: Cursor)
    ensures forall h :: h in Accepted(s, st, x) ==> x.pos <= h.at < |s.cells|
    decreases |s.cells| - x.pos
  {
    if !Finished(s, x.pos) {
      StepAdvances(s, st, x);
      var (st', x', hits) := Step(s, st, x);
      AcceptedInRange(s, st', x');
    }
  }

  ghost function Output(s: Scan, st: State, x: Cursor): seq<Out> {
    AcceptedInRange(s, st, x);
    Shown(s, Accepted(s, st, x))
  }

  /** One turn of the loop: after `done`, its hits come next in the scan's output. */
  method ScanTurn(s: Scan, ctx: ScanContext, ghost done: seq<Out>) returns (hits: seq<Hit>)
    requires s.env.schema == ctx.strategy.schema && CounterColumns(s.cells)
    requires !Finished(s, ctx.cursor.pos)
    modifies ctx`cursor, ctx.strategy`st
    ensures (ctx.strategy.st, ctx.cursor, hits) == Step(s, old(ctx.strategy.st), old(ctx.cursor))
    ensures old(ctx.cursor.pos) < ctx.cursor.pos <= |s.cells|
    ensures InRange(s, hits)
    ensures done + Output(s, old(ctx.strategy.st), old(ctx.cursor)) ==
            done + Shown(s, hits) + Output(s, ctx.strategy.st, ctx.cursor)
  {
    OutputStep(s, ctx.strategy.st, ctx.cursor);
    StepAdvances(s, ctx.strategy.st, ctx.cursor);
    hits := ScanOne(s, ctx);
  }

  // ---------- the batch limits ----------

  predicate RowStart(values: seq<Out>, i: nat)
    requires i < |values|
  {
    i == 0 || values[i - 1].row != values[i].row
  }

  /** What has been delivered is below both limits of a batch. */
  ghost predicate Below(values: seq<Out>, maxSize: nat, numberLimit: int) {
    Size(values) < maxSize && |values| < numberLimit
  }

  /** The batch is made of whole rows and, from `f` on, of part of the last row: each of the
      whole rows was begun below both limits, and the last row stops at its first cell if the
      whole rows reach one. */
  ghost predicate CutAt(values: seq<Out>, f: nat, maxSize: nat, numberLimit: int) {
    && f <= |values|
    && (forall i :: f <= i < |values| ==> values[i].row == values[f].row)
    && (f < |values| ==> RowStart(values, f))
    && (forall i :: 0 <= i < f && RowStart(values, i) ==> Below(values[..i], maxSize, numberLimit))
    && (!Below(values[..f], maxSize, numberLimit) ==> |values| - f <= 1)
  }

  lemma StepRows(s: Scan, st: State, x: Cursor)
    requires x.pos < |s.cells|
    ensures var (_, x', hits) := Step(s, st, x);
            && |hits| <= 1
            && (hits != [] ==> hits[0].at == x.pos && x'.lastKey == s.cells[x.pos].row && !Before(s.cells[x.pos], s.start))
            && (hits == [] && !Before(s.cells[x.pos], s.start) ==> x'.lastKey == x.lastKey)
  {
  }

  /** The row buffer holds cells of the row where the scan stands, from the start key on; the
      rows flushed come before it. */
  ghost predicate Buffered(s: Scan, x: Cursor, rowBuf: seq<Hit>, values: seq<Out>) {
    && InRange(s, rowBuf) && (rowBuf == [] ==> values == [])
    && (forall h :: h in rowBuf ==> h.at < x.pos && s.cells[h.at].row == x.lastKey && !Before(s.cells[h.at], s.start))
    && (forall o :: o in values ==> LexLt(o.row, x.lastKey))
  }

  /** Every whole row was begun below both limits, and so is what was delivered, until the
      scan stops for it. */
  ghost predicate Flushed(values: seq<Out>, maxSize: nat, numberLimit: int) {
    forall i :: 0 <= i < |values| && RowStart(values, i) ==> Below(values[..i], maxSize, numberLimit)
  }

  lemma {:induction false} ShownRow(s: Scan, hits: seq<Hit>, row: Bytes)
    requires InRange(s, hits) && forall h :: h in hits ==> s.cells[h.at].row == row
    ensures forall o :: o in Shown(s, hits) ==> o.row == row
    ensures |Shown(s, hits)| <= |hits|
  {
    if hits != [] {
      assert hits[0] in hits;
      ShownRow(s, hits[1..], row);
    }
  }

  /** A flush adds one row. */
  lemma FlushedNext(values: seq<Out>, more: seq<Out>, row: Bytes, maxSize: nat, numberLimit: int)
    requires Flushed(values, maxSize, numberLimit) && Below(values, maxSize, numberLimit)
    requires forall o :: o in more ==> o.row == row
    ensures Flushed(values + more, maxSize, numberLimit)
  {
    var all := values + more;
    forall i | |values| <= i < |all| ensures all[i].row == row { assert all[i] in more; }
    forall i | 0 <= i < |all| && RowStart(all, i) ensures Below(all[..i], maxSize, numberLimit) {
      if i < |values| {
        assert RowStart(values, i);
        assert all[..i] == values[..i];
      } else {
        assert i == |values|;
        assert all[..i] == values;
      }
    }
  }

  lemma CutNext(values: seq<Out>, more: seq<Out>, row: Bytes, maxSize: nat, numberLimit: int)
    requires Flushed(values, maxSize, numberLimit)
    requires (forall o :: o in more ==> o.row == row) && (forall o :: o in values ==> LexLt(o.row, row))
    requires !Below(values, maxSize, numberLimit) ==> |more| <= 1
    ensures CutAt(values + more, |values|, maxSize, numberLimit)
  {
    var all := values + more;
    LexAsym(row, row);
    assert all[..|values|] == values;
    forall i | |values| <= i < |all| ensures all[i].row == row { assert all[i] in more; }
    if 0 < |values| < |all| { assert all[|values| - 1] in values; }
    forall i | 0 <= i < |values| && RowStart(all, i) ensures Below(all[..i], maxSize, numberLimit) {
      assert RowStart(values, i);
      assert all[..i] == values[..i];
    }
  }

  /** The next accepted cell is in the same row or in a later one. */
  lemma NextRow(s: Scan, x: Cursor, rowBuf: seq<Hit>, values: seq<Out>)
    requires Sorted(s.cells) && Buffered(s, x, rowBuf, values) && rowBuf != [] && x.pos < |s.cells|
    ensures !Before(s.cells[x.pos], s.start)
    ensures s.cells[x.pos].row == x.lastKey || LexLt(x.lastKey, s.cells[x.pos].row)
  {
    var a := s.cells[rowBuf[0].at];
    assert rowBuf[0] in rowBuf;
    if Before(s.cells[x.pos], s.start) { BeforeTrans(a, s.cells[x.pos], s.start); }
  }

  /** After a turn that accepts nothing. */
  lemma BufferedSkip(s: Scan, x: Cursor, x': Cursor, rowBuf: seq<Hit>, values: seq<Out>)
    requires Sorted(s.cells) && Buffered(s, x, rowBuf, values) && x.pos < |s.cells| && x'.pos >= x.pos
    requires !Before(s.cells[x.pos], s.start) ==> x'.lastKey == x.lastKey
    ensures Buffered(s, x', rowBuf, values)
  {
    if rowBuf != [] { NextRow(s, x, rowBuf, values); }
  }

  /** After a turn that accepts `hit`, with or without a flush. */
  lemma BufferedNext(s: Scan, x: Cursor, x': Cursor, rowBuf: seq<Hit>, values: seq<Out>, hit: Hit)
    requires Sorted(s.cells) && Buffered(s, x, rowBuf, values) && x.pos < |s.cells| && x'.pos > x.pos
    requires hit.at == x.pos && x'.lastKey == s.cells[x.pos].row && !Before(s.cells[x.pos], s.start)
    ensures x'.lastKey == x.lastKey ==> Buffered(s, x', rowBuf + [hit], values)
    ensures x'.lastKey != x.lastKey ==> Buffered(s, x', [hit], values + Shown(s, rowBuf))
  {
    if rowBuf != [] { NextRow(s, x, rowBuf, values); }
    if x'.lastKey != x.lastKey {
      ShownRow(s, rowBuf, x.lastKey);
      forall o | o in values + Shown(s, rowBuf) ensures LexLt(o.row, x'.lastKey) {
        if o in values { LexTrans(o.row, x.lastKey, x'.lastKey); }
      }
    }
  }

  /** Flush the buffer at a row boundary, then buffer the accepted cell. */
  method BufferRow(s: Scan, newRow: bool, hits: seq<Hit>, rowBuf: seq<Hit>, values: seq<Out>, bufferSize: nat,
                   number: nat)
    returns (values': seq<Out>, rowBuf': seq<Hit>, bufferSize': nat, number': nat)
    requires InRange(s, hits) && InRange(s, rowBuf) && bufferSize == Size(values) && number == |values|
    ensures InRange(s, rowBuf') && bufferSize' == Size(values') && number' == |values'|
    ensures values' == (if newRow then values + Shown(s, rowBuf) else values)
    ensures rowBuf' == (if newRow then hits else rowBuf + hits)
    ensures values' + Shown(s, rowBuf') == values + Shown(s, rowBuf) + Shown(s, hits)
  {
    values', rowBuf', bufferSize', number' := values, rowBuf, bufferSize, number;
    if newRow {
      values', bufferSize', number' := ProcessRowBuffer(s, rowBuf, values, bufferSize, number);
      rowBuf' := [];
    }
    ShownConcat(s, rowBuf', hits);
    rowBuf' := rowBuf' + hits;
  }

  /** What the loop keeps about the limits, on a sorted stream. */
  ghost predicate Limited(s: Scan, x: Cursor, rowBuf: seq<Hit>, values: seq<Out>, maxSize: nat, numberLimit: int) {
    Sorted(s.cells) ==>
      Buffered(s, x, rowBuf, values) && Flushed(values, maxSize, numberLimit) &&
      (rowBuf != [] && !Below(values, maxSize, numberLimit) ==> |rowBuf| == 1)
  }

  lemma LimitedNext(s: Scan, st: State, x: Cursor, rowBuf: seq<Hit>, values: seq<Out>, maxSize: nat, numberLimit: int,
                    rowBuf': seq<Hit>, values': seq<Out>)
    requires x.pos < |s.cells| && InRange(s, rowBuf) && Limited(s, x, rowBuf, values, maxSize, numberLimit)
    requires rowBuf != [] ==> Below(values, maxSize, numberLimit)
    requires var (_, x', hits) := Step(s, st, x);
             var newRow := s.cells[x.pos].row != x.lastKey;
             && (hits == [] ==> rowBuf' == rowBuf && values' == values)
             && (hits != [] ==> values' == (if newRow then values + Shown(s, rowBuf) else values))
             && (hits != [] ==> rowBuf' == (if newRow then hits else rowBuf + hits))
    ensures Limited(s, Step(s, st, x).1, rowBuf', values', maxSize, numberLimit)
  {
    if Sorted(s.cells) {
      StepRows(s, st, x);
      StepAdvances(s, st, x);
      var x', hits := Step(s, st, x).1, Step(s, st, x).2;
      if hits == [] {
        BufferedSkip(s, x, x', rowBuf, values);
      } else {
        assert hits == [hits[0]];
        BufferedNext(s, x, x', rowBuf, values, hits[0]);
        if rowBuf != [] {
          ShownRow(s, rowBuf, x.lastKey);
          FlushedNext(values, Shown(s, rowBuf), x.lastKey, maxSize, numberLimit);
        } else {
          assert Shown(s, rowBuf) == [] && values + [] == values;
        }
      }
    }
  }

  lemma LimitedEnd(s: Scan, x: Cursor, rowBuf: seq<Hit>, values: seq<Out>, maxSize: nat, numberLimit: int)
    requires InRange(s, rowBuf) && Limited(s, x, rowBuf, values, maxSize, numberLimit) && Sorted(s.cells)
    ensures CutAt(values + Shown(s, rowBuf), |values|, maxSize, numberLimit)
  {
    ShownRow(s, rowBuf, x.lastKey);
    CutNext(values, Shown(s, rowBuf), x.lastKey, maxSize, numberLimit);
  }

  /** What the loop keeps of its own variables; `done` is what it has delivered or buffered. */
  ghost predicate Batch(s: Scan, x: Cursor, rowBuf: seq<Hit>, values: seq<Out>, bufferSize: nat, number: nat,
                        maxSize: nat, numberLimit: int, done: seq<Out>) {
    && x.pos <= |s.cells| && InRange(s, rowBuf) && done == values + Shown(s, rowBuf)
    && bufferSize == Size(values) && number == |values| && Limited(s, x, rowBuf, values, maxSize, numberLimit)
  }

  /** A turn of the loop with the row buffer; `stop` says that a limit is reached. */
  method ScanInto(s: Scan, ctx: ScanContext, rowBuf: seq<Hit>, values: seq<Out>, bufferSize: nat, number: nat,
                  maxSize: nat, numberLimit: int, ghost done: seq<Out>)
    returns (rowBuf': seq<Hit>, values': seq<Out>, bufferSize': nat, number': nat, stop: bool, ghost done': seq<Out>)
    requires s.env.schema == ctx.strategy.schema && CounterColumns(s.cells) && !Finished(s, ctx.cursor.pos)
    requires Batch(s, ctx.cursor, rowBuf, values, bufferSize, number, maxSize, numberLimit, done)
    requires rowBuf != [] ==> Below(values, maxSize, numberLimit)
    modifies ctx`cursor, ctx.strategy`st
    ensures Batch(s, ctx.cursor, rowBuf', values', bufferSize', number', maxSize, numberLimit, done')
    ensures !stop && rowBuf' != [] ==> Below(values', maxSize, numberLimit)
    ensures stop ==> !Below(values', maxSize, numberLimit)
    ensures ctx.cursor.pos > old(ctx.cursor.pos)
    ensures done + Output(s, old(ctx.strategy.st), old(ctx.cursor)) == done' + Output(s, ctx.strategy.st, ctx.cursor)
  {
    var newRow := s.cells[ctx.cursor.pos].row != ctx.cursor.lastKey;
    ghost var st, x := ctx.strategy.st, ctx.cursor;
    var hits := ScanTurn(s, ctx, done);
    done' := done + Shown(s, hits);
    values', rowBuf', bufferSize', number', stop := values, rowBuf, bufferSize, number, false;
    if hits != [] {
      values', rowBuf', bufferSize', number' := BufferRow(s, newRow, hits, rowBuf, values, bufferSize, number);
      stop := bufferSize' >= maxSize || number' >= numberLimit;
    }
    LimitedNext(s, st, x, rowBuf, values, maxSize, numberLimit, rowBuf', values');
  }

  /** The batch is cut where its limits say, and is incomplete only if its whole rows reach
      one of them. */
  ghost predicate Cut(values: seq<Out>, complete: bool, maxSize: nat, numberLimit: int) {
    exists f: nat :: CutAt(values, f, maxSize, numberLimit) && (!complete ==> !Below(values[..f], maxSize, numberLimit))
  }

  lemma BatchCut(s: Scan, x: Cursor, rowBuf: seq<Hit>, values: seq<Out>, maxSize: nat, numberLimit: int, complete: bool)
    requires InRange(s, rowBuf) && Limited(s, x, rowBuf, values, maxSize, numberLimit)
    requires !complete ==> !Below(values, maxSize, numberLimit)
    ensures Sorted(s.cells) ==> Cut(values + Shown(s, rowBuf), complete, maxSize, numberLimit)
  {
    if Sorted(s.cells) {
      LimitedEnd(s, x, rowBuf, values, maxSize, numberLimit);
      assert (values + Shown(s, rowBuf))[..|values|] == values;
    }
  }

  /** LowLevelScan: deliver cells until the range ends or a limit is reached.  What this
      batch delivers and what remains make up what was there; a batch that does not
      finish the range has consumed at least one cell. */
  method LowLevelScan(s: Scan, ctx: ScanContext, maxSize: nat, numberLimit: int)
    returns (values: seq<Out>, complete: bool)
    requires s.env.schema == ctx.strategy.schema && CounterColumns(s.cells) && ctx.cursor.pos <= |s.cells|
    modifies ctx`cursor, ctx.strategy`st
    ensures old(ctx.cursor.pos) <= ctx.cursor.pos <= |s.cells|
    ensures Output(s, old(ctx.strategy.st), old(ctx.cursor)) == values + Output(s, ctx.strategy.st, ctx.cursor)
    ensures complete ==> Finished(s, ctx.cursor.pos)
    ensures !complete ==> old(ctx.cursor.pos) < ctx.cursor.pos
    ensures Sorted(s.cells) ==> Cut(values, complete, maxSize, numberLimit)
  {
    var rowBuf: seq<Hit> := [];
    var bufferSize: nat, number: nat, stop := 0, 0, false;
    values := [];
    complete := false;
    ghost var done: seq<Out> := [];
    while ctx.cursor.pos < |s.cells| && !stop
      invariant old(ctx.cursor.pos) <= ctx.cursor.pos <= |s.cells| && (stop ==> old(ctx.cursor.pos) < ctx.cursor.pos)
      invariant Batch(s, ctx.cursor, rowBuf, values, bufferSize, number, maxSize, numberLimit, done)
      invariant !stop && rowBuf != [] ==> Below(values, maxSize, numberLimit)
      invariant stop ==> !Below(values, maxSize, numberLimit)
      invariant Output(s, old(ctx.strategy.st), old(ctx.cursor)) == done + Output(s, ctx.strategy.st, ctx.cursor)
      decreases |s.cells| - ctx.cursor.pos
    {
      if s.end != [] && !LexLt(s.cells[ctx.cursor.pos].row, s.end) {
        complete := true;
        break;
      }
      rowBuf, values, bufferSize, number, stop, done :=
        ScanInto(s, ctx, rowBuf, values, bufferSize, number, maxSize, numberLimit, done);
    }
    complete := if ctx.cursor.pos < |s.cells| then complete else true;
    BatchCut(s, ctx.cursor, rowBuf, values, maxSize, numberLimit, complete);
    values, bufferSize, number := ProcessRowBuffer(s, rowBuf, values, bufferSize, number);
  }

  lemma OutputStep(s: Scan, st: State, x: Cursor)
    requires !Finished(s, x.pos)
    ensures var (st', x', hits) := Step(s, st, x);
            && InRange(s, hits)
            && Output(s, st, x) == Shown(s, hits) + Output(s, st', x')
  {
    var (st', x', hits) := Step(s, st, x);
    AcceptedInRange(s, st, x);
    AcceptedInRange(s, st', x');
    StepAdvances(s, st, x);
    assert Accepted(s, st, x) == hits + Accepted(s, st', x');
    ShownConcat(s, hits, Accepted(s, st', x'));
  }

  /** The limits of batch `i`, if the client sets any. */
  function LimitOf(limits: seq<(nat, int)>, i: nat): (nat, int) {
    if i < |limits| then limits[i] else (0, 0)
  }

  /** Each batch is cut where its own limits say, and only the last is complete. */
  ghost predicate AllCut(batches: seq<seq<Out>>, limits: seq<(nat, int)>, complete: bool) {
    forall i :: 0 <= i < |batches| ==>
      Cut(batches[i], complete && i == |batches| - 1, LimitOf(limits, i).0, LimitOf(limits, i).1)
  }

  lemma AllCutNext(batches: seq<seq<Out>>, limits: seq<(nat, int)>, values: seq<Out>, complete: bool)
    requires AllCut(batches, limits, false)
    requires var limit := LimitOf(limits, |batches|); Cut(values, complete, limit.0, limit.1)
    ensures AllCut(batches + [values], limits, complete)
  {
    forall i | 0 <= i < |batches| ensures (batches + [values])[i] == batches[i] {
    }
  }

  /** A session from wherever its context stands, with limits of its own for each batch:
      the batches together deliver what was still to come, and the session ends. */
  method FinishSession(s: Scan, ctx: ScanContext, limits: seq<(nat, int)>) returns (batches: seq<seq<Out>>)
    requires s.env.schema == ctx.strategy.schema && CounterColumns(s.cells) && ctx.cursor.pos <= |s.cells|
    modifies ctx`cursor, ctx.strategy`st
    ensures Flatten(batches) == Output(s, old(ctx.strategy.st), old(ctx.cursor))
    ensures |batches| <= |s.cells| - old(ctx.cursor.pos) + 1
    ensures Sorted(s.cells) ==> AllCut(batches, limits, true)
  {
    var complete := false;
    batches := [];
    while !complete
      invariant old(ctx.cursor.pos) <= ctx.cursor.pos <= |s.cells|
      invariant Output(s, old(ctx.strategy.st), old(ctx.cursor)) ==
                Flatten(batches) + Output(s, ctx.strategy.st, ctx.cursor)
      invariant complete ==> Finished(s, ctx.cursor.pos)
      invariant |batches| <= ctx.cursor.pos - old(ctx.cursor.pos) + if complete then 1 else 0
      invariant Sorted(s.cells) ==> AllCut(batches, limits, complete)
      decreases !complete, |s.cells| - ctx.cursor.pos
    {
      var values;
      values, complete := ScanBatch(s, ctx, limits, batches);
      batches := batches + [values];
    }
  }

  method ScanBatch(s: Scan, ctx: ScanContext, limits: seq<(nat, int)>, batches: seq<seq<Out>>)
    returns (values: seq<Out>, complete: bool)
    requires s.env.schema == ctx.strategy.schema && CounterColumns(s.cells) && ctx.cursor.pos <= |s.cells|
    modifies ctx`cursor, ctx.strategy`st
    ensures old(ctx.cursor.pos) <= ctx.cursor.pos <= |s.cells|
    ensures Flatten(batches) + Output(s, old(ctx.strategy.st), old(ctx.cursor)) ==
            Flatten(batches + [values]) + Output(s, ctx.strategy.st, ctx.cursor)
    ensures complete ==> Finished(s, ctx.cursor.pos)
    ensures !complete ==> old(ctx.cursor.pos) < ctx.cursor.pos
    ensures Sorted(s.cells) && AllCut(batches, limits, false) ==> AllCut(batches + [values], limits, complete)
  {
    var limit := LimitOf(limits, |batches|);
    values, complete := LowLevelScan(s, ctx, limit.0, limit.1);
    FlattenSnoc(batches, values);
    if Sorted(s.cells) && AllCut(batches, limits, false) { AllCutNext(batches, limits, values, complete); }
  }

  /** A whole session delivers what one unlimited scan delivers, however it is cut. */
  method ScanSession(s: Scan, from: nat, quNum: nat, limits: seq<(nat, int)>) returns (batches: seq<seq<Out>>)
    requires CounterColumns(s.cells) && from <= |s.cells|
    ensures Flatten(batches) == Output(s, Fresh, NewCursor(from, quNum))
    ensures |batches| <= |s.cells| - from + 1
    ensures Sorted(s.cells) ==> AllCut(batches, limits, true)
  {
    var ctx := new ScanContext(s.env.schema, from, quNum);
    batches := FinishSession(s, ctx, limits);
  }

  function Flatten(batches: seq<seq<Out>>): seq<Out> {
    if batches == [] then [] else batches[0] + Flatten(batches[1..])
  }

  lemma {:induction false} FlattenSnoc(batches: seq<seq<Out>>, b: seq<Out>)
    ensures Flatten(batches + [b]) == Flatten(batches) + b
  {
    if batches == [] {
      assert batches + [b] == [b];
      assert [b][1..] == [];
    } else {
      assert (batches + [b])[1..] == batches[1..] + [b];
      FlattenSnoc(batches[1..], b);
    }
  }
}

/** What a scan shows for a column of atomic operations: the value that the operations, made
    one after the other on the put below them, leave. */
module AtomicReads {
  import opened Collections
  import opened Bytes
  import opened Cells
  import opened Strategy
  import opened AtomicMerge
  import opened TabletScan

  lemma {:induction false} CollectShift(cells: seq<Cell>, d: nat, i: nat, st: State, usePut: bool, snapshot: nat,
                                        lastTs: int)
    requires d + i <= |cells|
    ensures var part := Collect(cells[d..], i, st, usePut, snapshot, lastTs);
            Collect(cells, d + i, st, usePut, snapshot, lastTs) == (part.0, d + part.1)
    decreases |cells| - i
  {
    if d + i < |cells| {
      assert cells[d..][i] == cells[d + i];
      CollectShift(cells, d, i + 1, st, usePut, snapshot, cells[d + i].ts);
    }
  }

  /** The scan opens a column with a run of operations, and has room for it. */
  ghost predicate OpensRun(s: Scan, st: State, x: Cursor, k: Kind, xs: seq<Cell>, rest: seq<Cell>) {
    && CounterColumns(s.cells) && (forall c :: c in s.cells ==> c.seqno <= MAX_SEQUENCE)
    && x.pos < |s.cells| && s.cells[x.pos..] == xs + rest && AtomicRun(k, xs)
    && !Skipped(s, xs[0]) && !Before(xs[0], s.start) && !SameColumn(x, xs[0])
    && !(x.lastKey == xs[0].row && x.lastCol == xs[0].cf && x.quNum + 1 > s.opts.maxQualifiers)
    && !ScanStep(s.env, st, xs[0]).1 && EndsRun(ScanStep(s.env, st, xs[0]).0, rest)
  }

  lemma RunBounded(s: Scan, st: State, x: Cursor, k: Kind, xs: seq<Cell>, rest: seq<Cell>)
    requires OpensRun(s, st, x, k, xs, rest)
    ensures forall c :: c in xs || c in rest ==> c.seqno <= MAX_SEQUENCE
  {
    var all := xs + rest;
    forall c | c in xs || c in rest ensures c.seqno <= MAX_SEQUENCE {
      assert c in all;
      var i :| 0 <= i < |all| && all[i] == c;
      assert s.cells[x.pos + i] == c;
    }
  }

  lemma RunCollected(s: Scan, st: State, x: Cursor, k: Kind, xs: seq<Cell>, rest: seq<Cell>)
    requires OpensRun(s, st, x, k, xs, rest)
    ensures var st' := ScanStep(s.env, st, xs[0]).0;
            Collect(s.cells, x.pos + 1, st', true, MAX_SEQUENCE, xs[0].ts) ==
            (Values(xs[1..]) + PutBelow(st', rest), x.pos + |xs| + |PutBelow(st', rest)|)
  {
    var st' := ScanStep(s.env, st, xs[0]).0;
    StandsAfterScan(s.env, st, xs[0]);
    RunBounded(s, st, x, k, xs, rest);
    CollectRun(k, xs, rest, st', MAX_SEQUENCE, 1);
    CollectShift(s.cells, x.pos, 1, st', true, MAX_SEQUENCE, xs[0].ts);
  }

  lemma RunGood(s: Scan, st: State, x: Cursor, k: Kind, xs: seq<Cell>, rest: seq<Cell>)
    requires OpensRun(s, st, x, k, xs, rest)
    ensures Operands(k, Values(xs) + PutBelow(ScanStep(s.env, st, xs[0]).0, rest))
  {
    var st', all := ScanStep(s.env, st, xs[0]).0, xs + rest;
    StandsAfterScan(s.env, st, xs[0]);
    assert all[0] == xs[0] && s.cells[x.pos] == xs[0];
    ColumnOperands(s.cells, st', x.pos);
    if PutBelow(st', rest) != [] {
      assert all[|xs|] == rest[0] && s.cells[x.pos + |xs|] == rest[0];
      assert rest[0] in s.cells;
    }
  }

  /** One cell is shown for the whole run and the put below it, with what the operations make
      of the put in the order they were made, and the scan goes on after them. */
  lemma ScanShowsRun(s: Scan, st: State, x: Cursor, k: Kind, xs: seq<Cell>, rest: seq<Cell>)
    requires OpensRun(s, st, x, k, xs, rest)
    ensures var st' := ScanStep(s.env, st, xs[0]).0;
            var vals := Values(xs) + PutBelow(st', rest);
            var (after, x', hits) := Step(s, st, x);
            && Operands(k, vals) && Performed(k, vals).Some?
            && hits == [Hit(x.pos, Performed(k, vals).value)]
            && after == st' && x'.pos == x.pos + |xs| + |PutBelow(st', rest)| && SameColumn(x', xs[0])
  {
    var st' := ScanStep(s.env, st, xs[0]).0;
    var put := PutBelow(st', rest);
    RunCollected(s, st, x, k, xs, rest);
    RunGood(s, st, x, k, xs, rest);
    assert (xs + rest)[0] == xs[0] && s.cells[x.pos] == xs[0];
    assert [xs[0].value] + (Values(xs[1..]) + put) == Values(xs) + put;
    FoldIsPerformed(k, Values(xs) + put);
  }
}

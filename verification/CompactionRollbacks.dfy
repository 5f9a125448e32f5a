/** Compaction after a rollback.  Readers pass over the entries that were taken back; the loop
    drops them, yet lets them hide older entries of their key.  Reads stay the same exactly as
    long as the smallest snapshot is not above what was taken back. */
module CompactionRollbacks {
  import opened Bytes
  import opened Cells
  import opened Frontier
  import opened Strategy
  import opened Visibility
  import opened ReadSemantics
  import opened Discarding
  import opened Compaction
  import opened CompactionLoop
  import opened CompactionReads

  /** Of each key the latest entry at or below the snapshot stands, if any does. */
  ghost predicate LatestStands(rb: Rollbacks, snapshot: nat, c: set<Cell>) {
    forall x, y :: x in Newest(c, snapshot) && RolledBack(rb, x.seqno) && y in Effective(rb, c) && SameKey(x, y) ==>
      y.seqno > snapshot
  }

  lemma NewestEffective(rb: Rollbacks, snapshot: nat, c: set<Cell>)
    requires LatestStands(rb, snapshot, c)
    ensures Effective(rb, Newest(c, snapshot)) == Newest(Effective(rb, c), snapshot)
  {
    forall y | y in Newest(Effective(rb, c), snapshot) ensures y in Newest(c, snapshot) {
      var x := LatestOf(c, snapshot, y);
      assert x in Newest(c, snapshot);
      assert !RolledBack(rb, x.seqno);
      assert x in Effective(rb, c) && x.seqno <= y.seqno;
    }
  }

  /** Then the loop does what it would do without the entries that were taken back. */
  lemma CompactedEffective(j: Job, rb: Rollbacks, c: set<Cell>)
    requires LatestStands(rb, j.snapshot, c)
    ensures CompactedWith(j, rb, c) == Compacted(j, Effective(rb, c))
  {
    NewestEffective(rb, j.snapshot, c);
    assert Effective(rb, Above(c, j.snapshot)) == Above(Effective(rb, c), j.snapshot);
  }

  /** The job rewrites the entries `c` of a tablet `e`; `before` and `after` are what a reader
      no older, which passes over what was taken back, iterates without and with it. */
  ghost predicate Rewriting(j: Job, rb: Rollbacks, env: Env, e: set<Cell>, c: set<Cell>, s: nat, before: seq<Cell>,
                            after: seq<Cell>) {
    && Entries(e) && MarksFirst(Effective(rb, e)) && c <= e && Reads(j, env, s)
    && (forall x :: x in e && x !in c ==> !MarkDroppable(j.snapshot, j.bound, x.row))
    && Sorted(before) && Elems(before) == Newest(Effective(rb, e), s)
    && Sorted(after) && Elems(after) == Newest(Effective(rb, CompactedWith(j, rb, c) + (e - c)), s)
  }

  lemma RollbackPreserves(j: Job, rb: Rollbacks, env: Env, e: set<Cell>, c: set<Cell>, s: nat, before: seq<Cell>,
                          after: seq<Cell>)
    requires Rewriting(j, rb, env, e, c, s, before, after) && LatestStands(rb, j.snapshot, c)
    ensures ScanRun(env, Fresh, after) == ScanRun(env, Fresh, before)
  {
    var e', c' := Effective(rb, e), Effective(rb, c);
    CompactedEffective(j, rb, c);
    assert Compacted(j, c') <= c';
    assert Effective(rb, CompactedWith(j, rb, c) + (e - c)) == Compacted(j, c') + (e' - c');
    CompactionPreservesReads(j, env, e', c', s, before, after);
  }

  // ---------- the exact condition ----------

  /** No number at or below the snapshot was taken back while a smaller one stands. */
  ghost predicate SnapshotBelow(rb: Rollbacks, snapshot: nat) {
    forall p: nat, q: nat :: p < q <= snapshot && q < MAX_SEQUENCE && RolledBack(rb, q) ==> RolledBack(rb, p)
  }

  ghost predicate AlwaysPreserved(rb: Rollbacks, snapshot: nat) {
    forall j, env, e, c, s, before, after ::
      Rewriting(j, rb, env, e, c, s, before, after) && j.snapshot == snapshot ==>
      ScanRun(env, Fresh, after) == ScanRun(env, Fresh, before)
  }

  lemma BelowStands(rb: Rollbacks, snapshot: nat, c: set<Cell>)
    requires SnapshotBelow(rb, snapshot) && Entries(c)
    ensures LatestStands(rb, snapshot, c)
  {
    forall x, y | x in Newest(c, snapshot) && RolledBack(rb, x.seqno) && y in Effective(rb, c) && SameKey(x, y)
      ensures y.seqno > snapshot
    {
      assert y.seqno <= snapshot ==> y.seqno <= x.seqno;
    }
  }

  /** Two writes to one key, the later one taken back: the earlier one is readable. */
  function Write(seqno: nat): Cell {
    Cell([1], [1], [1], 5, Kind.Value, seqno, [])
  }

  lemma WriteVisible(env: Env, p: nat)
    requires env == Env(map[[1] := Family(1, 0)], 0)
    ensures ScanRun(env, Fresh, [Write(p)]) == [Write(p)]
  {
    var h := [Write(p)];
    assert h[1..] == [];
    ScanRunUnfold(env, Fresh, h);
    var s1 := ScanStep(env, Fresh, Write(p));
    assert ScanRun(env, s1.0, []) == [];
  }

  /** The compaction drops both. */
  lemma BothDropped(j: Job, rb: Rollbacks, p: nat, q: nat)
    requires p < q <= j.snapshot && RolledBack(rb, q)
    ensures CompactedWith(j, rb, {Write(p), Write(q)}) == {}
  {
    var c := {Write(p), Write(q)};
    assert SameKey(Write(p), Write(q)) && Write(q) in c;
    assert Write(p) !in Newest(c, j.snapshot);
    assert Effective(rb, Newest(c, j.snapshot)) == {};
    assert Effective(rb, Above(c, j.snapshot)) == {};
  }

  lemma EarlierWriteLost(rb: Rollbacks, snapshot: nat, p: nat, q: nat)
    requires p < q <= snapshot && q < MAX_SEQUENCE && RolledBack(rb, q) && !RolledBack(rb, p)
    ensures var j := Job(Env(map[[1] := Family(1, 0)], 0), snapshot, NoBound);
            var e := {Write(p), Write(q)};
            && Rewriting(j, rb, j.env, e, e, snapshot, [Write(p)], [])
            && ScanRun(j.env, Fresh, [Write(p)]) == [Write(p)] && ScanRun(j.env, Fresh, []) == []
  {
    var j := Job(Env(map[[1] := Family(1, 0)], 0), snapshot, NoBound);
    var e := {Write(p), Write(q)};
    BothDropped(j, rb, p, q);
    assert Effective(rb, e) == {Write(p)};
    assert Newest({Write(p)}, snapshot) == {Write(p)};
    assert Elems([Write(p)]) == {Write(p)};
    assert e - e == {} && Newest(Effective(rb, {} + (e - e)), snapshot) == {};
    WriteVisible(j.env, p);
  }

  /** With these rollbacks and this smallest snapshot, compactions leave every read of every
      tablet as it was if and only if nothing at or below the snapshot was taken back above a
      write that stands. */
  lemma RollbacksPreservedIff(rb: Rollbacks, snapshot: nat)
    ensures AlwaysPreserved(rb, snapshot) <==> SnapshotBelow(rb, snapshot)
  {
    if SnapshotBelow(rb, snapshot) {
      forall j, env, e, c, s, before, after |
        Rewriting(j, rb, env, e, c, s, before, after) && j.snapshot == snapshot
        ensures ScanRun(env, Fresh, after) == ScanRun(env, Fresh, before)
      {
        BelowStands(rb, snapshot, c);
        RollbackPreserves(j, rb, env, e, c, s, before, after);
      }
    } else {
      var p: nat, q: nat :| p < q <= snapshot && q < MAX_SEQUENCE && RolledBack(rb, q) && !RolledBack(rb, p);
      EarlierWriteLost(rb, snapshot, p, q);
    }
  }

  /** It is so while the snapshot that each rollback goes back to is still held. */
  lemma HeldSnapshotsSuffice(rb: Rollbacks, snapshot: nat)
    requires forall from :: from in rb ==> snapshot <= from
    ensures SnapshotBelow(rb, snapshot)
  {
  }
}

/** DBImpl::HandleCompactionWork: the loop that rewrites a range of entries, several of
    which may share a tera key and differ in their sequence numbers. */
module CompactionLoop {
  import opened Bytes
  import opened Cells
  import opened Frontier
  import opened Strategy
  import opened Visibility
  import opened ReadSemantics
  import opened Discarding
  import opened Compaction

  // ---------- entries ----------

  predicate SameKey(a: Cell, b: Cell) {
    SameCell(a, b) && a.ts == b.ts && a.kind == b.kind
  }

  /** The order of internal keys: by tera key, the latest sequence number first. */
  predicate EntryBefore(a: Cell, b: Cell) {
    Before(a, b) || (SameKey(a, b) && a.seqno > b.seqno)
  }

  ghost predicate EntrySorted(h: seq<Cell>) {
    forall i, j :: 0 <= i < j < |h| ==> EntryBefore(h[i], h[j])
  }

  /** The entries of a tablet: writes get sequence numbers of their own. */
  ghost predicate Entries(h: set<Cell>) {
    && AllWellFormed(h) && NoAtomics(h)
    && (forall x :: x in h ==> x.seqno < MAX_SEQUENCE)
    && (forall a, b :: a in h && b in h && SameKey(a, b) && a.seqno == b.seqno ==> a == b)
  }

  /** What an iterator at snapshot `s` delivers: of each key the latest entry. */
  ghost function Newest(h: set<Cell>, s: nat): set<Cell> {
    set x | x in h && x.seqno <= s && Latest(h, s, x)
  }

  ghost predicate Latest(h: set<Cell>, s: nat, x: Cell) {
    forall y :: y in h && SameKey(y, x) && y.seqno <= s ==> y.seqno <= x.seqno
  }

  lemma KeysOrdered(a: Cell, b: Cell)
    ensures SameKey(a, b) || Before(a, b) || Before(b, a)
    ensures SameKey(a, b) ==> !Before(a, b) && !Before(b, a)
  {
    LexTotal(a.row, b.row);
    LexTotal(a.cf, b.cf);
    LexTotal(a.qual, b.qual);
    LexAsym(a.row, b.row);
    LexAsym(a.cf, b.cf);
    LexAsym(a.qual, b.qual);
    CodesDiffer(a.kind, b.kind);
  }

  lemma CodesDiffer(a: Kind, b: Kind)
    ensures a.Code() == b.Code() ==> a == b
  {
  }

  lemma NewestHistory(h: set<Cell>, s: nat)
    requires Entries(h)
    ensures History(Newest(h, s)) && Newest(h, s) <= h
  {
    forall a, b | a in Newest(h, s) && b in Newest(h, s) && a != b ensures Before(a, b) || Before(b, a) {
      KeysOrdered(a, b);
    }
  }

  /** Every key with an entry at or below `s` has a latest one. */
  lemma {:induction false} LatestOf(h: set<Cell>, s: nat, x: Cell) returns (y: Cell)
    requires x in h && x.seqno <= s
    ensures y in h && SameKey(y, x) && x.seqno <= y.seqno <= s && Latest(h, s, y)
    decreases s - x.seqno
  {
    if Latest(h, s, x) {
      y := x;
    } else {
      var z :| z in h && SameKey(z, x) && z.seqno <= s && z.seqno > x.seqno;
      y := LatestOf(h, s, z);
    }
  }

  // ---------- the loop ----------

  ghost function DropState(env: Env, snapshot: nat, bound: Bound, st: State, h: seq<Cell>): State
    decreases |h|
  {
    if h == [] then st else DropState(env, snapshot, bound, DropStep(env, snapshot, bound, st, h[0]).0, h[1..])
  }

  lemma {:induction false} DropRunSnoc(env: Env, snapshot: nat, bound: Bound, st: State, h: seq<Cell>, x: Cell)
    ensures var (st', dropped) := DropStep(env, snapshot, bound, DropState(env, snapshot, bound, st, h), x);
            && DropState(env, snapshot, bound, st, h + [x]) == st'
            && DropRun(env, snapshot, bound, st, h + [x]) ==
               DropRun(env, snapshot, bound, st, h) + if dropped then [] else [x]
    decreases |h|
  {
    if h == [] {
      assert h + [x] == [x] && [x][1..] == [];
      assert DropRun(env, snapshot, bound, st, []) == [];
    } else {
      assert (h + [x])[1..] == h[1..] + [x];
      DropRunSnoc(env, snapshot, bound, DropStep(env, snapshot, bound, st, h[0]).0, h[1..], x);
    }
  }

  ghost function Above(h: set<Cell>, snapshot: nat): set<Cell> {
    set x | x in h && x.seqno > snapshot
  }

  /** DBImpl::Rollback takes back every write between two sequence numbers. */
  type Rollbacks = map<nat, nat>

  predicate RolledBack(rb: Rollbacks, seqno: nat) {
    exists from :: from in rb && from < seqno <= rb[from]
  }

  /** The entries that no rollback takes back. */
  ghost function Effective(rb: Rollbacks, h: set<Cell>): set<Cell> {
    set x | x in h && !RolledBack(rb, x.seqno)
  }

  /** `e` comes after the entries of `p`. */
  ghost predicate EntryAfter(p: set<Cell>, e: Cell) {
    forall x :: x in p ==> EntryBefore(x, e)
  }

  lemma KeyComesLater(p: set<Cell>, e: Cell, x: Cell)
    requires EntryAfter(p, e) && x in p && SameKey(x, e)
    ensures x.seqno > e.seqno
  {
    KeysOrdered(x, e);
  }

  lemma LatestStays(p: set<Cell>, s: nat, e: Cell, x: Cell)
    requires EntryAfter(p, e) && x in p
    ensures Latest(p + {e}, s, x) <==> Latest(p, s, x)
  {
    assert forall y :: y in p ==> y in p + {e};
    if SameKey(x, e) { KeyComesLater(p, e, x); }
  }

  /** An entry above the snapshot, or hidden by one at or below it, is not among the latest. */
  lemma NewestSkips(p: set<Cell>, s: nat, e: Cell)
    requires EntryAfter(p, e)
    requires e.seqno > s || exists x :: x in p && SameKey(x, e) && x.seqno <= s
    ensures Newest(p + {e}, s) == Newest(p, s)
  {
    forall x | x in p ensures Latest(p + {e}, s, x) <==> Latest(p, s, x) { LatestStays(p, s, e, x); }
    if e.seqno <= s {
      var x :| x in p && SameKey(x, e) && x.seqno <= s;
      KeyComesLater(p, e, x);
      assert x in p + {e};
    }
  }

  /** An entry whose key has no entry at or below the snapshot yet is the latest. */
  lemma NewestAdds(p: set<Cell>, s: nat, e: Cell)
    requires EntryAfter(p, e) && e.seqno <= s
    requires !exists x :: x in p && SameKey(x, e) && x.seqno <= s
    ensures Newest(p + {e}, s) == Newest(p, s) + {e}
  {
    forall x | x in p ensures Latest(p + {e}, s, x) <==> Latest(p, s, x) { LatestStays(p, s, e, x); }
  }

  /** The entries the loop has passed. */
  ghost function Done(input: seq<Cell>, i: nat): set<Cell>
    requires i <= |input|
  {
    Elems(input[..i])
  }

  lemma DoneNext(input: seq<Cell>, i: nat)
    requires EntrySorted(input) && i < |input|
    ensures Done(input, i + 1) == Done(input, i) + {input[i]}
    ensures EntryAfter(Done(input, i), input[i])
  {
    assert input[..i + 1] == input[..i] + [input[i]];
    forall x | x in Done(input, i) ensures EntryBefore(x, input[i]) {
      var k :| 0 <= k < i && input[..i][k] == x;
      assert input[k] == x;
    }
  }

  /** What the loop knows of the current key: its last entry. */
  ghost predicate AtKey(input: seq<Cell>, i: nat, hasCurrent: bool, current: Cell, lastSeq: nat) {
    && i <= |input| && (hasCurrent <==> i > 0)
    && (i > 0 ==> SameKey(current, input[i - 1]) && lastSeq == input[i - 1].seqno)
  }

  /** The last entry of the key tells whether the next one is hidden. */
  lemma HiddenByLast(input: seq<Cell>, i: nat, snapshot: nat)
    requires EntrySorted(input) && 0 < i < |input|
    ensures (exists x :: x in Done(input, i) && SameKey(x, input[i]) && x.seqno <= snapshot) <==>
              SameKey(input[i - 1], input[i]) && input[i - 1].seqno <= snapshot
  {
    var last, e := input[i - 1], input[i];
    DoneNext(input, i - 1);
    if x :| x in Done(input, i) && SameKey(x, e) && x.seqno <= snapshot {
      if x != last {
        assert EntryBefore(x, last) && EntryBefore(last, e);
        KeysOrdered(x, e);
        KeysOrdered(x, last);
        KeysOrdered(last, e);
        if Before(x, last) && Before(last, e) { BeforeTrans(x, last, e); }
        BeforeAsym(x, last);
      }
    }
    if SameKey(last, e) && last.seqno <= snapshot {
      assert last in Done(input, i);
    }
  }

  /** The results so far; `kept` is what Drop kept of the entries fed to it. */
  ghost predicate Written(j: Job, rb: Rollbacks, input: seq<Cell>, i: nat, fed: seq<Cell>, kept: seq<Cell>,
                          out: seq<Cell>) {
    && i <= |input|
    && Sorted(fed) && Elems(fed) == Effective(rb, Newest(Done(input, i), j.snapshot))
    && (forall x :: x in kept ==> x in fed)
    && EntrySorted(out) && Elems(out) == Effective(rb, Above(Done(input, i), j.snapshot)) + Elems(kept)
  }

  lemma OutGrows(input: seq<Cell>, i: nat, out: seq<Cell>)
    requires EntrySorted(input) && i < |input| && EntrySorted(out) && Elems(out) <= Done(input, i)
    ensures EntrySorted(out + [input[i]]) && Elems(out + [input[i]]) == Elems(out) + {input[i]}
  {
    DoneNext(input, i);
    forall k | 0 <= k < |out| ensures EntryBefore(out[k], input[i]) {
      assert out[k] in Elems(out);
    }
  }

  lemma OutWithin(j: Job, rb: Rollbacks, input: seq<Cell>, i: nat, fed: seq<Cell>, kept: seq<Cell>, out: seq<Cell>)
    requires Written(j, rb, input, i, fed, kept, out)
    ensures Elems(out) <= Done(input, i)
  {
    forall x | x in Elems(out) ensures x in Done(input, i) {
      if x in kept { assert x in Elems(fed); }
    }
  }

  /** A hidden entry, or one taken back: nothing changes. */
  lemma WrittenHidden(j: Job, rb: Rollbacks, input: seq<Cell>, i: nat, fed: seq<Cell>, kept: seq<Cell>, out: seq<Cell>)
    requires EntrySorted(input) && Written(j, rb, input, i, fed, kept, out) && i < |input|
    requires Hidden(input, i, j.snapshot) || RolledBack(rb, input[i].seqno)
    ensures Written(j, rb, input, i + 1, fed, kept, out)
  {
    DoneNext(input, i);
    AboveSame(Done(input, i), j.snapshot, input[i]);
    if Hidden(input, i, j.snapshot) || input[i].seqno > j.snapshot {
      NewestSkips(Done(input, i), j.snapshot, input[i]);
      if Hidden(input, i, j.snapshot) { HiddenBelow(input, i, j.snapshot); }
    } else {
      NewestAdds(Done(input, i), j.snapshot, input[i]);
    }
  }

  lemma HiddenBelow(input: seq<Cell>, i: nat, snapshot: nat)
    requires EntrySorted(input) && i < |input| && Hidden(input, i, snapshot)
    ensures input[i].seqno <= snapshot
  {
    DoneNext(input, i);
    var x :| x in Done(input, i) && SameKey(x, input[i]) && x.seqno <= snapshot;
    KeyComesLater(Done(input, i), input[i], x);
  }

  lemma AboveSame(p: set<Cell>, snapshot: nat, e: Cell)
    ensures e.seqno <= snapshot ==> Above(p + {e}, snapshot) == Above(p, snapshot)
    ensures e.seqno > snapshot ==> Above(p + {e}, snapshot) == Above(p, snapshot) + {e}
  {
  }

  /** An entry above the snapshot: Drop does not see it. */
  lemma WrittenAbove(j: Job, rb: Rollbacks, input: seq<Cell>, i: nat, fed: seq<Cell>, kept: seq<Cell>, out: seq<Cell>)
    requires EntrySorted(input) && Written(j, rb, input, i, fed, kept, out) && i < |input|
    requires input[i].seqno > j.snapshot && !RolledBack(rb, input[i].seqno)
    ensures Written(j, rb, input, i + 1, fed, kept, out + [input[i]])
  {
    DoneNext(input, i);
    NewestSkips(Done(input, i), j.snapshot, input[i]);
    OutWithin(j, rb, input, i, fed, kept, out);
    OutGrows(input, i, out);
    AboveSame(Done(input, i), j.snapshot, input[i]);
    EffectiveAdds(rb, Above(Done(input, i), j.snapshot), input[i]);
  }

  lemma EffectiveAdds(rb: Rollbacks, h: set<Cell>, e: Cell)
    requires !RolledBack(rb, e.seqno)
    ensures Effective(rb, h + {e}) == Effective(rb, h) + {e}
  {
  }

  lemma WrittenFed(j: Job, rb: Rollbacks, input: seq<Cell>, i: nat, fed: seq<Cell>, kept: seq<Cell>, out: seq<Cell>,
                   dropped: bool)
    requires EntrySorted(input) && Written(j, rb, input, i, fed, kept, out) && i < |input|
    requires !Hidden(input, i, j.snapshot) && input[i].seqno <= j.snapshot && !RolledBack(rb, input[i].seqno)
    ensures var more := if dropped then [] else [input[i]];
            Written(j, rb, input, i + 1, fed + [input[i]], kept + more, out + more)
  {
    var e := input[i];
    DoneNext(input, i);
    NewestAdds(Done(input, i), j.snapshot, e);
    EffectiveAdds(rb, Newest(Done(input, i), j.snapshot), e);
    OutWithin(j, rb, input, i, fed, kept, out);
    OutGrows(input, i, out);
    AboveSame(Done(input, i), j.snapshot, e);
    assert Elems(fed + [e]) == Elems(fed) + {e};
    forall k | 0 <= k < |fed| ensures Before(fed[k], e) {
      assert fed[k] in Elems(fed);
      assert EntryBefore(fed[k], e);
    }
    assert Elems(kept + [e]) == Elems(kept) + {e};
    if dropped { assert kept + [] == kept && out + [] == out; }
  }

  ghost predicate Hidden(input: seq<Cell>, i: nat, snapshot: nat)
    requires i < |input|
  {
    exists x :: x in Done(input, i) && SameKey(x, input[i]) && x.seqno <= snapshot
  }

  lemma LastTells(input: seq<Cell>, i: nat, snapshot: nat, lastSeq: nat)
    requires EntrySorted(input) && Entries(Elems(input)) && i < |input|
    requires lastSeq == if i > 0 && SameKey(input[i - 1], input[i]) then input[i - 1].seqno else MAX_SEQUENCE
    ensures lastSeq <= snapshot && lastSeq != MAX_SEQUENCE <==> Hidden(input, i, snapshot)
  {
    if i > 0 {
      HiddenByLast(input, i, snapshot);
      assert input[i - 1] in Elems(input);
    }
  }

  /** The entry is not the strategy's to decide. */
  ghost predicate Unfed(j: Job, rb: Rollbacks, input: seq<Cell>, i: nat)
    requires i < |input|
  {
    RolledBack(rb, input[i].seqno) || Hidden(input, i, j.snapshot) || input[i].seqno > j.snapshot
  }

  lemma WrittenNext(j: Job, rb: Rollbacks, input: seq<Cell>, i: nat, fed: seq<Cell>, kept: seq<Cell>, out: seq<Cell>,
                    drop: bool, fed': seq<Cell>, kept': seq<Cell>)
    requires EntrySorted(input) && Written(j, rb, input, i, fed, kept, out) && i < |input|
    requires Unfed(j, rb, input, i) ==>
               fed' == fed && kept' == kept && (drop <==> RolledBack(rb, input[i].seqno) || Hidden(input, i, j.snapshot))
    requires !Unfed(j, rb, input, i) ==> fed' == fed + [input[i]] && kept' == kept + if drop then [] else [input[i]]
    ensures Written(j, rb, input, i + 1, fed', kept', if drop then out else out + [input[i]])
  {
    if RolledBack(rb, input[i].seqno) || Hidden(input, i, j.snapshot) {
      WrittenHidden(j, rb, input, i, fed, kept, out);
    } else if input[i].seqno > j.snapshot {
      WrittenAbove(j, rb, input, i, fed, kept, out);
    } else {
      WrittenFed(j, rb, input, i, fed, kept, out, drop);
      assert out + [] == out;
    }
  }

  /** Drop an entry that was taken back or that a newer one hides, ask the strategy about one
      at or below the snapshot. */
  method DropEntry(j: Job, rb: Rollbacks, strategy: DefaultCompactStrategy, e: Cell, lastSeq: nat, ghost fed: seq<Cell>)
    returns (drop: bool, ghost fed': seq<Cell>)
    requires strategy.schema == j.env.schema && strategy.snapshot == j.snapshot
    requires strategy.st == DropState(j.env, j.snapshot, j.bound, Fresh, fed)
    modifies strategy`st
    ensures strategy.st == DropState(j.env, j.snapshot, j.bound, Fresh, fed')
    ensures var gone := RolledBack(rb, e.seqno) || (lastSeq <= j.snapshot && lastSeq != MAX_SEQUENCE);
            && fed' == (if gone || e.seqno > j.snapshot then fed else fed + [e])
            && (gone ==> drop) && (!gone && e.seqno > j.snapshot ==> !drop)
            && (!gone && e.seqno <= j.snapshot ==>
                  DropRun(j.env, j.snapshot, j.bound, Fresh, fed') ==
                  DropRun(j.env, j.snapshot, j.bound, Fresh, fed) + if drop then [] else [e])
  {
    drop, fed' := false, fed;
    if RolledBack(rb, e.seqno) {
      drop := true;
    } else if lastSeq <= j.snapshot && lastSeq != MAX_SEQUENCE {
      drop := true;
    } else if e.seqno <= j.snapshot {
      DropRunSnoc(j.env, j.snapshot, j.bound, Fresh, fed, e);
      drop := strategy.Drop(e, j.env.now, j.bound);
      fed' := fed + [e];
    }
  }

  /** One turn of the loop. */
  method LoopTurn(j: Job, rb: Rollbacks, strategy: DefaultCompactStrategy, input: seq<Cell>, i: nat, hasCurrent: bool,
                  current: Cell, lastSeq: nat, out: seq<Cell>, ghost fed: seq<Cell>, ghost kept: seq<Cell>)
    returns (current': Cell, lastSeq': nat, out': seq<Cell>, ghost fed': seq<Cell>, ghost kept': seq<Cell>)
    requires strategy.schema == j.env.schema && strategy.snapshot == j.snapshot
    requires strategy.st == DropState(j.env, j.snapshot, j.bound, Fresh, fed)
    requires kept == DropRun(j.env, j.snapshot, j.bound, Fresh, fed)
    requires EntrySorted(input) && Entries(Elems(input)) && i < |input|
    requires AtKey(input, i, hasCurrent, current, lastSeq) && Written(j, rb, input, i, fed, kept, out)
    modifies strategy`st
    ensures strategy.st == DropState(j.env, j.snapshot, j.bound, Fresh, fed')
    ensures kept' == DropRun(j.env, j.snapshot, j.bound, Fresh, fed')
    ensures AtKey(input, i + 1, true, current', lastSeq') && Written(j, rb, input, i + 1, fed', kept', out')
  {
    var e := input[i];
    current', lastSeq', out' := current, lastSeq, out;
    if !hasCurrent || !SameKey(e, current) {
      current', lastSeq' := e, MAX_SEQUENCE;
    }
    LastTells(input, i, j.snapshot, lastSeq');
    var drop;
    drop, fed' := DropEntry(j, rb, strategy, e, lastSeq', fed);
    kept' := DropRun(j.env, j.snapshot, j.bound, Fresh, fed');
    WrittenNext(j, rb, input, i, fed, kept, out, drop, fed', kept');
    lastSeq' := e.seqno;
    if !drop { out' := out + [e]; }
  }

  /** What replaces the entries `c`: those above the snapshot, and of the latest entries at
      or below it those that Drop does not discard. */
  ghost function Compacted(j: Job, c: set<Cell>): set<Cell> {
    Above(c, j.snapshot) + Survivors(j, Newest(c, j.snapshot))
  }

  /** The same when some of them were taken back: such an entry goes, but it still hides the
      older entries of its key. */
  ghost function CompactedWith(j: Job, rb: Rollbacks, c: set<Cell>): set<Cell> {
    Effective(rb, Above(c, j.snapshot)) + Survivors(j, Effective(rb, Newest(c, j.snapshot)))
  }

  /** What Drop keeps of the entries fed to it are the survivors. */
  lemma KeptIsSurvivors(j: Job, rb: Rollbacks, input: seq<Cell>, fed: seq<Cell>, kept: seq<Cell>, out: seq<Cell>)
    requires EntrySorted(input) && Entries(Elems(input)) && Written(j, rb, input, |input|, fed, kept, out)
    requires kept == DropRun(j.env, j.snapshot, j.bound, Fresh, fed)
    ensures Elems(out) == CompactedWith(j, rb, Elems(input))
  {
    var c := Elems(fed);
    assert input[..|input|] == input;
    NewestHistory(Elems(input), j.snapshot);
    FreshDropInv(j.env, j.snapshot);
    assert {} + c == c;
    DropRunDiscards(j.env, j.snapshot, j.bound, {}, Fresh, fed);
    assert Elems(kept) == Survivors(j, c);
  }

  /** The loop feeds Drop the latest entry of every key at or below the smallest snapshot,
      unless it was taken back, and writes out what Drop keeps and every entry above the
      snapshot that was not. */
  method HandleCompactionWork(j: Job, rb: Rollbacks, input: seq<Cell>) returns (out: seq<Cell>)
    requires EntrySorted(input) && Entries(Elems(input))
    ensures EntrySorted(out) && Elems(out) == CompactedWith(j, rb, Elems(input))
  {
    var strategy := new DefaultCompactStrategy(j.env.schema);
    strategy.SetSnapshot(j.snapshot);
    var hasCurrent, lastSeq: nat := false, MAX_SEQUENCE;
    var current := Cell([], [], [], 0, ForSeek, 0, []);
    out := [];
    ghost var fed: seq<Cell> := [];
    ghost var kept: seq<Cell> := DropRun(j.env, j.snapshot, j.bound, Fresh, fed);
    WrittenFirst(j, rb, input);
    var i: nat := 0;
    while i < |input|
      invariant strategy.schema == j.env.schema && strategy.snapshot == j.snapshot
      invariant strategy.st == DropState(j.env, j.snapshot, j.bound, Fresh, fed)
      invariant kept == DropRun(j.env, j.snapshot, j.bound, Fresh, fed)
      invariant AtKey(input, i, hasCurrent, current, lastSeq)
      invariant Written(j, rb, input, i, fed, kept, out)
    {
      current, lastSeq, out, fed, kept := LoopTurn(j, rb, strategy, input, i, hasCurrent, current, lastSeq, out, fed, kept);
      hasCurrent, i := true, i + 1;
    }
    KeptIsSurvivors(j, rb, input, fed, kept, out);
  }

  lemma WrittenFirst(j: Job, rb: Rollbacks, input: seq<Cell>)
    ensures Written(j, rb, input, 0, [], [], [])
  {
    assert Newest(Done(input, 0), j.snapshot) == {};
  }
}

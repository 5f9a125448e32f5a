/** The compaction loop preserves reads: whatever entries share a key, and whichever
    files a compaction covers, every scan at a snapshot it respects is unchanged. */
module CompactionReads {
  import opened Bytes
  import opened Cells
  import opened Frontier
  import opened Strategy
  import opened Visibility
  import opened ReadSemantics
  import opened Discarding
  import opened Compaction
  import opened CompactionLoop

  // ---------- visibility is a matter of keys ----------

  ghost predicate HasKey(h: set<Cell>, x: Cell) {
    exists y :: y in h && SameKey(y, x)
  }

  ghost predicate KeysWithin(g: set<Cell>, h: set<Cell>) {
    forall x {:trigger HasKey(h, x)} :: x in g ==> HasKey(h, x)
  }

  lemma KeyUnique(h: set<Cell>, x: Cell, y: Cell)
    requires Distinct(h) && x in h && y in h && SameKey(x, y)
    ensures x == y
  {
    KeysOrdered(x, y);
  }

  lemma {:induction false} KeysFewer(a: set<Cell>, b: set<Cell>)
    requires Distinct(a) && KeysWithin(a, b)
    ensures |a| <= |b|
    decreases |a|
  {
    if a != {} {
      var x :| x in a;
      assert HasKey(b, x);
      var y :| y in b && SameKey(y, x);
      forall z | z in a - {x} ensures HasKey(b - {y}, z) {
        assert HasKey(b, z);
        var w :| w in b && SameKey(w, z);
        if w == y { KeyUnique(a, x, z); }
        assert w in b - {y};
      }
      KeysFewer(a - {x}, b - {y});
    }
  }

  lemma SameOrder(a: Cell, b: Cell, a': Cell, b': Cell)
    requires SameKey(a, a') && SameKey(b, b')
    ensures Before(a, b) <==> Before(a', b')
    ensures SameCell(a, b) <==> SameCell(a', b')
    ensures SameKey(a, b) <==> SameKey(a', b')
  {
  }

  lemma VersionsTransfer(g: set<Cell>, h: set<Cell>, x: Cell, y: Cell)
    requires Distinct(g) && Distinct(h) && KeysWithin(h, g) && x in g && y in h && SameKey(x, y)
    ensures |Versions(h, y)| <= |Versions(g, x)|
  {
    forall v | v in Versions(h, y) ensures HasKey(Versions(g, x), v) {
      assert HasKey(g, v);
      var w :| w in g && SameKey(w, v);
      SameOrder(v, y, w, x);
      if v == y { KeyUnique(g, w, x); }
      assert w in Versions(g, x);
    }
    KeysFewer(Versions(h, y), Versions(g, x));
  }

  lemma OneDeletedTransfer(g: set<Cell>, h: set<Cell>, x: Cell, y: Cell)
    requires Distinct(g) && KeysWithin(h, g) && KeysWithin(g, h) && x in g && y in h && SameKey(x, y)
    requires OneDeleted(h, y)
    ensures OneDeleted(g, x)
  {
    var d :| Precedes(h, d, y) && d.kind.DelQualifier?;
    assert HasKey(g, d);
    var d' :| d' in g && SameKey(d', d);
    forall e | e in g && SameCell(e, x) && Before(e, x) ensures e == d' || Before(e, d') {
      assert HasKey(h, e);
      var e' :| e' in h && SameKey(e', e);
      SameOrder(e', y, e, x);
      SameOrder(e', d, e, d');
      if e' == d { KeyUnique(g, e, d'); }
    }
    SameOrder(d, y, d', x);
    assert Precedes(g, d', x);
  }

  lemma MarksTransfer(g: set<Cell>, h: set<Cell>, x: Cell, y: Cell)
    requires KeysWithin(h, g) && SameKey(x, y)
    ensures RowDeleted(h, y) ==> RowDeleted(g, x)
    ensures ColDeleted(h, y) ==> ColDeleted(g, x)
    ensures QualDeleted(h, y) ==> QualDeleted(g, x)
  {
    if RowDeleted(h, y) {
      var m :| m in h && m.kind.Del? && SameRow(m, y) && m.ts >= y.ts;
      assert HasKey(g, m);
    }
    if ColDeleted(h, y) {
      var m :| m in h && m.kind.DelColumn? && SameCol(m, y) && m.ts >= y.ts;
      assert HasKey(g, m);
    }
    if QualDeleted(h, y) {
      var m :| m in h && m.kind.DelQualifiers? && SameCell(m, y) && m.ts >= y.ts;
      assert HasKey(g, m);
    }
  }

  /** The same keys make the same cells visible. */
  lemma VisibleTransfer(env: Env, g: set<Cell>, h: set<Cell>, x: Cell, y: Cell)
    requires Distinct(g) && Distinct(h) && KeysWithin(h, g) && KeysWithin(g, h)
    requires x in g && y in h && SameKey(x, y) && Visible(env, g, x)
    ensures Visible(env, h, y)
  {
    MarksTransfer(g, h, x, y);
    if OneDeleted(h, y) { OneDeletedTransfer(g, h, x, y); }
    VersionsTransfer(g, h, x, y);
  }

  // ---------- one representative per key ----------

  /** A compaction of the entries `c` of a tablet `e`: `fed` went to Drop, which kept
      `kept`; `out` is what replaces `c`. */
  ghost predicate Compacts(j: Job, e: set<Cell>, c: set<Cell>, fed: set<Cell>, kept: set<Cell>, out: set<Cell>) {
    && Entries(e) && MarksFirst(e) && c <= e
    && (forall x :: x in e && x !in c ==> !MarkDroppable(j.snapshot, j.bound, x.row))
    && fed == Newest(c, j.snapshot)
    && kept == Survivors(j, fed)
    && out == Above(c, j.snapshot) + kept
  }

  /** The tablet as a reader at `s` finds it, with the entries fed to Drop standing for
      the later entries of their keys. */
  ghost function Standing(e: set<Cell>, fed: set<Cell>, s: nat): set<Cell> {
    fed + (set x | x in Newest(e, s) && !HasKey(fed, x))
  }

  /** Those of `h` whose key the reader still finds in `view`. */
  ghost function Remaining(h: set<Cell>, view: set<Cell>): set<Cell> {
    set r | r in h && HasKey(view, r)
  }

  lemma NewestHasKey(e: set<Cell>, s: nat, x: Cell)
    requires x in e && x.seqno <= s
    ensures HasKey(Newest(e, s), x)
  {
    var y := LatestOf(e, s, x);
    assert y in Newest(e, s);
  }

  lemma StandingHistory(j: Job, e: set<Cell>, c: set<Cell>, fed: set<Cell>, kept: set<Cell>, out: set<Cell>, s: nat,
                        h: set<Cell>)
    requires Compacts(j, e, c, fed, kept, out) && s >= j.snapshot && h == Standing(e, fed, s)
    ensures History(h) && MarksFirst(h) && At(h, s) == h && h <= e
  {
    assert Entries(c);
    NewestHistory(c, j.snapshot);
    NewestHistory(e, s);
    forall a, b | a in h && b in h && a != b ensures Before(a, b) || Before(b, a) {
      KeysOrdered(a, b);
      if a in fed && b !in fed { assert !HasKey(fed, b); }
      if b in fed && a !in fed { assert !HasKey(fed, a); }
    }
  }

  lemma StandingRewrites(j: Job, e: set<Cell>, c: set<Cell>, fed: set<Cell>, kept: set<Cell>, out: set<Cell>, s: nat,
                         h: set<Cell>)
    requires Compacts(j, e, c, fed, kept, out) && s >= j.snapshot && h == Standing(e, fed, s)
    ensures Rewrites(j, h, fed)
  {
    StandingHistory(j, e, c, fed, kept, out, s, h);
    forall x | x in h && x !in fed ensures !MarkDroppable(j.snapshot, j.bound, x.row) {
      assert !HasKey(fed, x);
      if x in c && x.seqno <= j.snapshot { NewestHasKey(c, j.snapshot, x); }
    }
  }

  lemma StandingKeys(e: set<Cell>, fed: set<Cell>, s: nat, h: set<Cell>)
    requires h == Standing(e, fed, s) && fed <= e && forall x :: x in fed ==> x.seqno <= s
    ensures KeysWithin(Newest(e, s), h) && KeysWithin(h, Newest(e, s))
  {
    forall x | x in Newest(e, s) ensures HasKey(h, x) {
      if HasKey(fed, x) {
        var y :| y in fed && SameKey(y, x);
        assert y in h;
      } else {
        assert x in h;
      }
    }
    forall r | r in h ensures HasKey(Newest(e, s), r) {
      NewestHasKey(e, s, r);
    }
  }

  // ---------- after the compaction ----------

  ghost function Replaced(e: set<Cell>, c: set<Cell>, out: set<Cell>): set<Cell> {
    out + (e - c)
  }

  lemma ReplacedEntries(j: Job, e: set<Cell>, c: set<Cell>, fed: set<Cell>, kept: set<Cell>, out: set<Cell>)
    requires Compacts(j, e, c, fed, kept, out)
    ensures Replaced(e, c, out) <= e && Entries(Replaced(e, c, out))
  {
  }

  /** What was not discarded is still found. */
  lemma RewrittenRemains(j: Job, e: set<Cell>, c: set<Cell>, fed: set<Cell>, kept: set<Cell>, out: set<Cell>, s: nat,
                         h: set<Cell>, r: Cell)
    requires Compacts(j, e, c, fed, kept, out) && s >= j.snapshot && h == Standing(e, fed, s)
    requires r in Rewritten(j, h, fed)
    ensures r.seqno <= s && r in Replaced(e, c, out)
  {
    if r !in kept {
      assert r in h && r !in fed && !HasKey(fed, r);
      if r in c && r.seqno <= j.snapshot { NewestHasKey(c, j.snapshot, r); }
    }
  }

  /** A discarded entry whose key is still found belongs to a row that keeps its marks. */
  lemma RemainsUndroppable(j: Job, e: set<Cell>, c: set<Cell>, fed: set<Cell>, kept: set<Cell>, out: set<Cell>,
                           s: nat, h: set<Cell>, r: Cell, y: Cell)
    requires Compacts(j, e, c, fed, kept, out) && s >= j.snapshot && h == Standing(e, fed, s)
    requires r in h && r !in Rewritten(j, h, fed) && y in Replaced(e, c, out) && SameKey(y, r)
    ensures !MarkDroppable(j.snapshot, j.bound, r.row)
  {
    assert r in fed && r !in kept;
    assert Entries(c);
    NewestHistory(c, j.snapshot);
    if y in fed { KeyUnique(fed, y, r); }
  }

  lemma RemainingBetween(j: Job, e: set<Cell>, c: set<Cell>, fed: set<Cell>, kept: set<Cell>, out: set<Cell>, s: nat,
                         h: set<Cell>, view: set<Cell>, a: set<Cell>)
    requires Compacts(j, e, c, fed, kept, out) && s >= j.snapshot && h == Standing(e, fed, s)
    requires view == Newest(Replaced(e, c, out), s) && a == Remaining(h, view)
    ensures Between(j, h, fed, s, a)
  {
    StandingHistory(j, e, c, fed, kept, out, s, h);
    forall r | r in At(Rewritten(j, h, fed), s) ensures r in a {
      RewrittenRemains(j, e, c, fed, kept, out, s, h, r);
      NewestHasKey(Replaced(e, c, out), s, r);
    }
    forall r | r in a && r !in Rewritten(j, h, fed) ensures !MarkDroppable(j.snapshot, j.bound, r.row) {
      assert HasKey(view, r);
      var y :| y in view && SameKey(y, r);
      RemainsUndroppable(j, e, c, fed, kept, out, s, h, r, y);
    }
  }

  lemma RemainingKeys(e: set<Cell>, fed: set<Cell>, s: nat, h: set<Cell>, after: set<Cell>, view: set<Cell>, a: set<Cell>)
    requires h == Standing(e, fed, s) && fed <= e && forall x :: x in fed ==> x.seqno <= s
    requires after <= e && view == Newest(after, s) && a == Remaining(h, view)
    ensures KeysWithin(view, a) && KeysWithin(a, view)
  {
    StandingKeys(e, fed, s, h);
    forall y | y in view ensures HasKey(a, y) {
      NewestHasKey(e, s, y);
      var x :| x in Newest(e, s) && SameKey(x, y);
      assert HasKey(h, x);
      var r :| r in h && SameKey(r, x);
      assert HasKey(view, r);
      assert r in a;
    }
  }

  // ---------- the theorem ----------

  /** Everything the theorem speaks of: `before` and `view` are what the reader iterates
      without and with the compaction, `h` and `a` their representatives. */
  ghost predicate Setting(j: Job, env: Env, e: set<Cell>, c: set<Cell>, fed: set<Cell>, kept: set<Cell>,
                          out: set<Cell>, s: nat, before: set<Cell>, h: set<Cell>, view: set<Cell>, a: set<Cell>) {
    && Compacts(j, e, c, fed, kept, out) && Reads(j, env, s)
    && before == Newest(e, s) && h == Standing(e, fed, s)
    && view == Newest(Replaced(e, c, out), s) && a == Remaining(h, view)
  }

  /** The facts gathered so far, with the sets as they are. */
  ghost predicate Linked(j: Job, env: Env, fed: set<Cell>, s: nat, before: set<Cell>, h: set<Cell>, view: set<Cell>,
                         a: set<Cell>) {
    && Reads(j, env, s) && Rewrites(j, h, fed) && Between(j, h, fed, s, a) && At(h, s) == h
    && Distinct(before) && Distinct(view) && Distinct(a)
    && KeysWithin(before, h) && KeysWithin(h, before) && KeysWithin(view, a) && KeysWithin(a, view)
  }

  lemma SettingLinked(j: Job, env: Env, e: set<Cell>, c: set<Cell>, fed: set<Cell>, kept: set<Cell>, out: set<Cell>,
                      s: nat, before: set<Cell>, h: set<Cell>, view: set<Cell>, a: set<Cell>)
    requires Setting(j, env, e, c, fed, kept, out, s, before, h, view, a)
    ensures Linked(j, env, fed, s, before, h, view, a)
  {
    StandingHistory(j, e, c, fed, kept, out, s, h);
    StandingRewrites(j, e, c, fed, kept, out, s, h);
    StandingKeys(e, fed, s, h);
    RemainingBetween(j, e, c, fed, kept, out, s, h, view, a);
    RemainingKeys(e, fed, s, h, Replaced(e, c, out), view, a);
    NewestHistory(e, s);
    ReplacedEntries(j, e, c, fed, kept, out);
    NewestHistory(Replaced(e, c, out), s);
  }

  lemma RepresentativeStays(j: Job, env: Env, fed: set<Cell>, s: nat, before: set<Cell>, h: set<Cell>, view: set<Cell>,
                            a: set<Cell>, x: Cell)
    returns (r: Cell)
    requires Linked(j, env, fed, s, before, h, view, a) && x in before && Visible(env, before, x)
    ensures r in h && SameKey(r, x) && !(r in fed && Gone(j, fed, r)) && r in a && Visible(env, a, r)
  {
    assert HasKey(h, x);
    r :| r in h && SameKey(r, x);
    VisibleTransfer(env, before, h, x, r);
    VisibleStays(j, env, h, fed, s, a, r);
    if r in fed { PutSurvives(j, env, h, fed, s, r, r); }
  }

  /** A visible entry is still there, and still visible. */
  lemma EntryStays(j: Job, env: Env, e: set<Cell>, c: set<Cell>, fed: set<Cell>, kept: set<Cell>, out: set<Cell>,
                   s: nat, before: set<Cell>, h: set<Cell>, view: set<Cell>, a: set<Cell>, x: Cell)
    requires Setting(j, env, e, c, fed, kept, out, s, before, h, view, a)
    requires x in before && Visible(env, before, x)
    ensures x in view && Visible(env, view, x)
  {
    SettingLinked(j, env, e, c, fed, kept, out, s, before, h, view, a);
    var r := RepresentativeStays(j, env, fed, s, before, h, view, a, x);
    NewestStays(j, e, c, fed, kept, out, s, x, r);
    VisibleTransfer(env, a, view, r, x);
  }

  lemma NewestStays(j: Job, e: set<Cell>, c: set<Cell>, fed: set<Cell>, kept: set<Cell>, out: set<Cell>, s: nat,
                    x: Cell, r: Cell)
    requires Compacts(j, e, c, fed, kept, out) && s >= j.snapshot && x in Newest(e, s)
    requires SameKey(r, x) && !(r in fed && Gone(j, fed, r)) && r in Standing(e, fed, s)
    ensures x in Newest(Replaced(e, c, out), s)
  {
    if x in c && x.seqno <= j.snapshot {
      assert x in fed;
      assert HasKey(fed, r);
      assert Entries(c);
      NewestHistory(c, j.snapshot);
      KeyUnique(fed, x, r);
    }
    assert x in Replaced(e, c, out);
  }

  /** Nothing else becomes visible. */
  lemma EntryWas(j: Job, env: Env, e: set<Cell>, c: set<Cell>, fed: set<Cell>, kept: set<Cell>, out: set<Cell>,
                 s: nat, before: set<Cell>, h: set<Cell>, view: set<Cell>, a: set<Cell>, y: Cell)
    requires Setting(j, env, e, c, fed, kept, out, s, before, h, view, a)
    requires y in view && Visible(env, view, y)
    ensures y in before && Visible(env, before, y)
  {
    SettingLinked(j, env, e, c, fed, kept, out, s, before, h, view, a);
    var x := RepresentativeWas(j, env, fed, s, before, h, view, a, y);
    EntryStays(j, env, e, c, fed, kept, out, s, before, h, view, a, x);
    KeyUnique(view, x, y);
  }

  lemma RepresentativeWas(j: Job, env: Env, fed: set<Cell>, s: nat, before: set<Cell>, h: set<Cell>, view: set<Cell>,
                          a: set<Cell>, y: Cell)
    returns (x: Cell)
    requires Linked(j, env, fed, s, before, h, view, a) && y in view && Visible(env, view, y)
    ensures x in before && SameKey(x, y) && Visible(env, before, x)
  {
    assert HasKey(a, y);
    var r :| r in a && SameKey(r, y);
    VisibleTransfer(env, view, a, y, r);
    HiddenStays(j, env, h, fed, s, a, r);
    assert HasKey(before, r);
    x :| x in before && SameKey(x, r);
    VisibleTransfer(env, h, before, r, x);
  }

  /** Rewrite the entries `c` of a tablet `e` as the loop does.  `before` is what a reader at
      snapshot `s` iterates without the compaction and `after` with it: both scans return
      the same cells in the same order. */
  lemma CompactionPreservesReads(j: Job, env: Env, e: set<Cell>, c: set<Cell>, s: nat, before: seq<Cell>,
                                 after: seq<Cell>)
    requires Entries(e) && MarksFirst(e) && c <= e && Reads(j, env, s)
    requires forall x :: x in e && x !in c ==> !MarkDroppable(j.snapshot, j.bound, x.row)
    requires Sorted(before) && Elems(before) == Newest(e, s)
    requires Sorted(after) && Elems(after) == Newest(Compacted(j, c) + (e - c), s)
    ensures ScanRun(env, Fresh, after) == ScanRun(env, Fresh, before)
  {
    var fed := Newest(c, j.snapshot);
    var kept, out := Survivors(j, fed), Compacted(j, c);
    var h := Standing(e, fed, s);
    ReplacedEntries(j, e, c, fed, kept, out);
    NewestHistory(e, s);
    NewestHistory(Replaced(e, c, out), s);
    SameVisible(j, env, e, c, fed, kept, out, s, Elems(before), h, Elems(after), Remaining(h, Elems(after)));
    SameScan(env, before, after);
  }

  lemma SameVisible(j: Job, env: Env, e: set<Cell>, c: set<Cell>, fed: set<Cell>, kept: set<Cell>, out: set<Cell>,
                    s: nat, before: set<Cell>, h: set<Cell>, view: set<Cell>, a: set<Cell>)
    requires Setting(j, env, e, c, fed, kept, out, s, before, h, view, a)
    ensures forall x :: x in before && Visible(env, before, x) <==> x in view && Visible(env, view, x)
  {
    forall x ensures x in before && Visible(env, before, x) <==> x in view && Visible(env, view, x) {
      if x in before && Visible(env, before, x) {
        EntryStays(j, env, e, c, fed, kept, out, s, before, h, view, a, x);
      } else if x in view && Visible(env, view, x) {
        EntryWas(j, env, e, c, fed, kept, out, s, before, h, view, a, x);
      }
    }
  }

  lemma SameScan(env: Env, before: seq<Cell>, after: seq<Cell>)
    requires Sorted(before) && History(Elems(before)) && MarksFirst(Elems(before))
    requires Sorted(after) && History(Elems(after)) && MarksFirst(Elems(after))
    requires forall x :: x in Elems(before) && Visible(env, Elems(before), x) <==>
                         x in Elems(after) && Visible(env, Elems(after), x)
    ensures ScanRun(env, Fresh, after) == ScanRun(env, Fresh, before)
  {
    ScanIsVisible(env, before);
    ScanIsVisible(env, after);
    var out, out' := ScanRun(env, Fresh, before), ScanRun(env, Fresh, after);
    forall x ensures x in out <==> x in out' {
      assert x in before <==> x in Elems(before);
      assert x in after <==> x in Elems(after);
    }
    assert Elems(out) == Elems(out');
    SortedUnique(out', out);
  }
}

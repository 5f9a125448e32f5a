/** teracli's meta repair: filling the gaps between the key ranges of a table, and the
    check that reports missing, covered and overlapping ranges. */
module Tiling {
  import opened Bytes
  import opened TabletNames

  /** A key range from `start` up to `end`, kept under `path`; an empty end is no limit. */
  datatype Tablet = Tablet(start: Bytes, end: Bytes, path: Bytes)

  predicate ValidRange(t: Tablet) {
    t.end == [] || LexLt(t.start, t.end)
  }

  predicate Contains(t: Tablet, key: Bytes) {
    !LexLt(key, t.start) && (t.end == [] || LexLt(key, t.end))
  }

  /** A std::map from start keys: entries in key order. */
  ghost predicate Ordered(s: seq<Tablet>) {
    forall i, j :: 0 <= i < j < |s| ==> LexLt(s[i].start, s[j].start)
  }

  /** The ranges follow one another without gap or overlap, from the first key to the last. */
  ghost predicate Tiles(s: seq<Tablet>) {
    && s != [] && s[0].start == [] && s[|s| - 1].end == []
    && (forall i :: 0 <= i < |s| ==> ValidRange(s[i]))
    && (forall i :: 0 <= i < |s| - 1 ==> s[i].end != [] && s[i + 1].start == s[i].end)
  }

  /** Ranges that do not overlap, only the last of which may be open. */
  ghost predicate Apart(s: seq<Tablet>) {
    && (forall i :: 0 <= i < |s| ==> ValidRange(s[i]))
    && (forall i :: 0 <= i < |s| - 1 ==> s[i].end != [] && !LexLt(s[i + 1].start, s[i].end))
  }

  // ---------- tiling and covering ----------

  lemma LexLeTrans(a: Bytes, b: Bytes, c: Bytes)
    requires !LexLt(b, a)
    ensures LexLt(b, c) ==> LexLt(a, c)
    ensures !LexLt(c, b) ==> !LexLt(c, a)
  {
    LexTotal(a, b);
    if a != b {
      if LexLt(b, c) { LexTrans(a, b, c); }
      if LexLt(c, a) { LexTrans(c, a, b); }
    }
  }

  lemma {:induction false} TilesOrdered(s: seq<Tablet>, i: nat, j: nat)
    requires Tiles(s) && i < j < |s|
    ensures s[i].end != [] && !LexLt(s[j].start, s[i].end)
    decreases j
  {
    LexAsym(s[i].end, s[i].end);
    if i + 1 < j {
      TilesOrdered(s, i, j - 1);
      assert LexLt(s[j - 1].start, s[j - 1].end);
      LexLeTrans(s[i].end, s[j - 1].start, s[j].start);
      LexAsym(s[j].start, s[i].end);
    }
  }

  lemma {:induction false} TilesFind(s: seq<Tablet>, key: Bytes, n: nat) returns (i: nat)
    requires Tiles(s) && n < |s| && !LexLt(key, s[n].start)
    ensures i < |s| && Contains(s[i], key)
    decreases |s| - n
  {
    if Contains(s[n], key) {
      i := n;
    } else {
      i := TilesFind(s, key, n + 1);
    }
  }

  lemma NotInBoth(s: seq<Tablet>, key: Bytes, i: nat, j: nat)
    requires Tiles(s) && i < j < |s| && Contains(s[i], key)
    ensures !Contains(s[j], key)
  {
    TilesOrdered(s, i, j);
    LexLeTrans(s[i].end, s[j].start, key);
    LexAsym(key, s[i].end);
  }

  ghost predicate InExactlyOne(s: seq<Tablet>, key: Bytes) {
    exists i :: 0 <= i < |s| && Contains(s[i], key) && forall j :: 0 <= j < |s| && Contains(s[j], key) ==> j == i
  }

  /** In a tiling every key lies in exactly one tablet. */
  lemma TilesCover(s: seq<Tablet>, key: Bytes)
    requires Tiles(s)
    ensures InExactlyOne(s, key)
  {
    var i := TilesFind(s, key, 0);
    forall j | 0 <= j < |s| && Contains(s[j], key) ensures j == i {
      if i < j { NotInBoth(s, key, i, j); }
      if j < i { NotInBoth(s, key, j, i); }
    }
  }

  lemma FirstStarts(s: seq<Tablet>)
    requires InExactlyOne(s, []) && Ordered(s)
    ensures s != [] && s[0].start == []
  {
    var i :| 0 <= i < |s| && Contains(s[i], []);
    assert i > 0 ==> LexLt(s[0].start, s[i].start);
  }

  /** Two ranges of an ordered list that each key is in at most once: the first ends before
      the second starts. */
  lemma EndsBefore(s: seq<Tablet>, i: nat, j: nat)
    requires Ordered(s) && i < j < |s| && ValidRange(s[j]) && InExactlyOne(s, s[j].start)
    ensures s[i].end != [] && !LexLt(s[j].start, s[i].end)
  {
    LexAsym(s[j].start, s[j].start);
    LexAsym(s[i].start, s[j].start);
    assert Contains(s[j], s[j].start);
  }

  lemma EndIsNext(s: seq<Tablet>, i: nat)
    requires Ordered(s) && i < |s| && s[i].end != [] && (forall k :: 0 <= k < |s| ==> ValidRange(s[k]))
    requires forall key :: InExactlyOne(s, key)
    ensures i + 1 < |s| && s[i + 1].start == s[i].end
  {
    var key := s[i].end;
    assert InExactlyOne(s, key);
    var j: nat :| j < |s| && Contains(s[j], key);
    LexAsym(key, key);
    assert i < j by {
      if j < i {
        assert InExactlyOne(s, s[i].start);
        EndsBefore(s, j, i);
        LexLeTrans(s[j].end, s[i].start, key);
        LexAsym(key, s[j].end);
      }
    }
    assert InExactlyOne(s, s[i + 1].start);
    EndsBefore(s, i, i + 1);
    if i + 1 < j {
      LexLeTrans(key, s[i + 1].start, s[j].start);
    }
    LexTotal(s[i + 1].start, key);
  }

  /** An ordered list of ranges tiles the key space if and only if every key lies in
      exactly one of them. */
  lemma TilesIff(s: seq<Tablet>)
    requires Ordered(s) && forall i :: 0 <= i < |s| ==> ValidRange(s[i])
    ensures Tiles(s) <==> forall key :: InExactlyOne(s, key)
  {
    if Tiles(s) {
      forall key ensures InExactlyOne(s, key) { TilesCover(s, key); }
    }
    if forall key :: InExactlyOne(s, key) {
      assert InExactlyOne(s, []);
      FirstStarts(s);
      forall i | 0 <= i < |s| - 1 ensures s[i].end != [] && s[i + 1].start == s[i].end {
        assert InExactlyOne(s, s[i + 1].start);
        EndsBefore(s, i, i + 1);
        EndIsNext(s, i);
      }
      if s[|s| - 1].end != [] { EndIsNext(s, |s| - 1); }
    }
  }

  // ---------- filling the gaps ----------

  /** std::map::insert: nothing happens if the key is there. */
  function Insert(s: seq<Tablet>, t: Tablet): seq<Tablet> {
    if s == [] || LexLt(t.start, s[0].start) then [t] + s
    else if t.start == s[0].start then s
    else [s[0]] + Insert(s[1..], t)
  }

  lemma {:induction false} InsertAt(a: seq<Tablet>, b: seq<Tablet>, t: Tablet)
    requires forall x :: x in a ==> LexLt(x.start, t.start)
    requires forall x :: x in b ==> LexLt(t.start, x.start)
    ensures Insert(a + b, t) == a + [t] + b
    decreases |a|
  {
    if a == [] {
      assert a + b == b;
      assert a + [t] + b == [t] + b;
    } else {
      LexAsym(a[0].start, t.start);
      assert a[0] in a;
      assert (a + b)[1..] == a[1..] + b;
      InsertAt(a[1..], b, t);
      assert a == [a[0]] + a[1..];
    }
  }

  /** A tablet the repair adds: its path was left to issue when it began. */
  ghost predicate Added(c: Catalogue, t: Tablet) {
    Available(c, 0, c.tabletNum, t.path)
  }

  /** The readable tablets of the directory, each under its own name. */
  ghost predicate Listed(c: Catalogue, s: seq<Tablet>) {
    && Proper(c)
    && (forall t :: t in s ==> exists name :: InUse(c, name) && name !in c.fails && t.path == PathOf(c, name))
    && PathsDistinct(s)
  }

  ghost predicate PathsDistinct(s: seq<Tablet>) {
    forall i, j :: 0 <= i < j < |s| ==> s[i].path != s[j].path
  }

  /** The tablets of `s` have paths of their own, none of which can still be issued. */
  ghost predicate Named(c: Catalogue, s: seq<Tablet>, index: nat, num: nat) {
    && num >= c.tabletNum && PathsDistinct(s)
    && forall t :: t in s ==> !Available(c, index, num, t.path)
  }

  lemma ListedNotAdded(c: Catalogue, s: seq<Tablet>, t: Tablet)
    requires Listed(c, s) && t in s
    ensures !Added(c, t)
  {
    var name :| InUse(c, name) && name !in c.fails && t.path == PathOf(c, name);
    InUseNotAvailable(c, name);
  }

  /** Passing the next readable tablet ... */
  lemma NamedOwn(c: Catalogue, orig: seq<Tablet>, k: nat, s: seq<Tablet>, index: nat, num: nat)
    requires Listed(c, orig) && k < |orig| && Named(c, s, index, num)
    requires forall t :: t in s ==> t in orig[..k] || Added(c, t)
    ensures Named(c, s + [orig[k]], index, num)
  {
    ListedNotAdded(c, orig, orig[k]);
    var name, index', num' := NextName(c, index, num).0, NextName(c, index, num).1, NextName(c, index, num).2;
    IssuedOnce(c, index, num, name, index', num', orig[k].path);
    forall t | t in s ensures t.path != orig[k].path {
      if t in orig[..k] {
        var i :| 0 <= i < k && orig[..k][i] == t;
        assert orig[i] == t;
      }
    }
  }

  /** ... and adding one under the next name. */
  lemma NamedAdded(c: Catalogue, s: seq<Tablet>, t: Tablet, index: nat, num: nat, name: Bytes, index': nat, num': nat)
    requires Proper(c) && Named(c, s, index, num) && (name, index', num') == NextName(c, index, num)
    requires t.path == PathOf(c, name)
    ensures Named(c, s + [t], index', num') && Added(c, t)
  {
    IssuedOnce(c, index, num, name, index', num', t.path);
    forall u | u in s ensures !Available(c, index', num', u.path) && u.path != t.path {
      IssuedOnce(c, index, num, name, index', num', u.path);
    }
  }

  /** A tiling of the keys below the end of its last range. */
  ghost predicate PartTiles(s: seq<Tablet>) {
    && s != [] && s[0].start == []
    && (forall i :: 0 <= i < |s| ==> ValidRange(s[i]))
    && (forall i :: 0 <= i < |s| - 1 ==> s[i].end != [] && s[i + 1].start == s[i].end)
  }

  lemma {:induction false} PartOrdered(s: seq<Tablet>, i: nat, j: nat)
    requires PartTiles(s) && i < j < |s|
    ensures LexLt(s[i].start, s[j].start)
    decreases j
  {
    if i + 1 < j {
      PartOrdered(s, i, j - 1);
      LexTrans(s[i].start, s[j - 1].start, s[j].start);
    }
  }

  /** The next range of the table, with the gap before it filled if there is one. */
  lemma PartNext(done: seq<Tablet>, pre: Tablet, next: Tablet, gap: Tablet)
    requires PartTiles(done + [pre]) && pre.end != [] && ValidRange(next) && !LexLt(next.start, pre.end)
    requires gap.start == pre.end && gap.end == next.start
    ensures LexLt(pre.end, next.start) ==> PartTiles(done + [pre, gap] + [next])
    ensures !LexLt(pre.end, next.start) ==> PartTiles(done + [pre] + [next])
  {
    var s := done + [pre];
    LexTotal(pre.end, next.start);
    assert s[|s| - 1] == pre;
    if LexLt(pre.end, next.start) {
      var u := done + [pre, gap] + [next];
      assert forall i :: 0 <= i < |s| ==> u[i] == s[i];
    } else {
      var u := done + [pre] + [next];
      assert forall i :: 0 <= i < |s| ==> u[i] == s[i];
    }
  }

  /** The loop has passed `k` of the original entries; `done` stands for them. */
  ghost predicate Filled(c: Catalogue, orig: seq<Tablet>, k: nat, done: seq<Tablet>) {
    && k <= |orig| && (k == 0 ==> done == [])
    && (0 < k < |orig| ==> PartTiles(done + [orig[k]]))
    && (0 < k == |orig| ==> Tiles(done))
    && (forall t :: t in orig[..k] ==> t in done)
    && (forall t :: t in done ==> t in orig[..k] || Added(c, t))
  }

  /** A filled start: the keys before the first range get one of their own. */
  lemma FilledStart(pre: Tablet, gap: Tablet)
    requires ValidRange(pre) && gap.start == [] && gap.end == pre.start
    ensures pre.start == [] ==> PartTiles([pre])
    ensures pre.start != [] ==> PartTiles([gap] + [pre])
  {
  }

  /** The next range follows without a gap, */
  lemma FilledNext(c: Catalogue, orig: seq<Tablet>, k: nat, done: seq<Tablet>)
    requires Apart(orig) && k + 1 < |orig| && PartTiles(done + [orig[k]])
    requires forall t :: t in orig[..k] ==> t in done
    requires forall t :: t in done ==> t in orig[..k] || Added(c, t)
    requires !LexLt(orig[k].end, orig[k + 1].start)
    ensures Filled(c, orig, k + 1, done + [orig[k]])
  {
    PartNext(done, orig[k], orig[k + 1], Tablet(orig[k].end, orig[k + 1].start, []));
    assert orig[..k + 1] == orig[..k] + [orig[k]];
  }

  /** or after one. */
  lemma FilledGap(c: Catalogue, orig: seq<Tablet>, k: nat, done: seq<Tablet>, gap: Tablet)
    requires Apart(orig) && k + 1 < |orig| && PartTiles(done + [orig[k]])
    requires forall t :: t in orig[..k] ==> t in done
    requires forall t :: t in done ==> t in orig[..k] || Added(c, t)
    requires LexLt(orig[k].end, orig[k + 1].start) && Added(c, gap)
    requires gap.start == orig[k].end && gap.end == orig[k + 1].start
    ensures Filled(c, orig, k + 1, done + [orig[k]] + [gap])
  {
    PartNext(done, orig[k], orig[k + 1], gap);
    assert done + [orig[k]] + [gap] == done + [orig[k], gap];
    assert orig[..k + 1] == orig[..k] + [orig[k]];
  }

  lemma FilledLast(c: Catalogue, orig: seq<Tablet>, k: nat, done: seq<Tablet>)
    requires k + 1 == |orig| && k > 0 && Filled(c, orig, k, done) && orig[k].end == []
    ensures Filled(c, orig, k + 1, done + [orig[k]])
  {
    assert orig[..k + 1] == orig[..k] + [orig[k]];
  }

  lemma FilledEnd(c: Catalogue, orig: seq<Tablet>, k: nat, done: seq<Tablet>, gap: Tablet)
    requires k + 1 == |orig| && k > 0 && Filled(c, orig, k, done) && orig[k].end != []
    requires gap.start == orig[k].end && gap.end == [] && Added(c, gap)
    ensures Filled(c, orig, k + 1, done + [orig[k]] + [gap])
  {
    var u := done + [orig[k]];
    assert orig[..k + 1] == orig[..k] + [orig[k]];
    assert u[|u| - 1] == orig[k];
    TilesClosed(u, gap);
  }

  /** Where the gap after `pre` goes. */
  lemma InsertGap(done: seq<Tablet>, pre: Tablet, rest: seq<Tablet>, gap: Tablet)
    requires PartTiles(done + [pre]) && pre.end != [] && gap.start == pre.end && Ordered(rest)
    requires rest != [] ==> LexLt(pre.end, rest[0].start)
    ensures Insert(done + [pre] + rest, gap) == done + [pre] + [gap] + rest
  {
    var a := done + [pre];
    forall x | x in a ensures LexLt(x.start, gap.start) {
      var i :| 0 <= i < |a| && a[i] == x;
      if i < |a| - 1 {
        PartOrdered(a, i, |a| - 1);
        LexTrans(x.start, pre.start, gap.start);
      }
    }
    forall x | x in rest ensures LexLt(gap.start, x.start) {
      var i :| 0 <= i < |rest| && rest[i] == x;
      if i > 0 { LexTrans(gap.start, rest[0].start, x.start); }
    }
    InsertAt(a, rest, gap);
  }

  class TabletMap {
    var entries: seq<Tablet>

    constructor (entries: seq<Tablet>)
      ensures this.entries == entries
    {
      this.entries := entries;
    }

    /** Fill the gaps of a table: all its ranges stay, together with the new ones they tile
        the key space, and every path is used once. */
    method FixTabletGap(c: Catalogue)
      requires Ordered(entries) && Apart(entries) && Listed(c, entries)
      modifies this
      ensures old(entries) == [] ==> entries == []
      ensures old(entries) != [] ==> Tiles(entries)
      ensures forall t :: t in old(entries) ==> t in entries
      ensures forall t :: t in entries ==> t in old(entries) || Added(c, t)
      ensures PathsDistinct(entries)
    {
      if |entries| == 1 {
        FixOnly(c);
        return;
      }
      ghost var orig := entries;
      ghost var k, done: seq<Tablet> := 0, [];
      var index, num := 0, c.tabletNum;
      var it: nat := 0;
      var tableStart := true;
      while it < |entries|
        invariant 0 <= k <= |orig| && Filled(c, orig, k, done) && it == |done| && entries == done + orig[k..]
        invariant Named(c, done, index, num)
        invariant tableStart <==> k == 0
        decreases |orig| - k
      {
        index, num, it, done := FixTurn(orig, k, done, c, index, num, it, tableStart);
        tableStart := false;
        k := k + 1;
      }
      assert orig[..|orig|] == orig && entries == done;
    }

    /** One turn of the loop, at the entry `it`. */
    method FixTurn(ghost orig: seq<Tablet>, ghost k: nat, ghost done: seq<Tablet>, c: Catalogue, index: nat, num: nat,
                   it: nat, tableStart: bool)
      returns (index': nat, num': nat, it': nat, ghost done': seq<Tablet>)
      requires Ordered(orig) && Apart(orig) && |orig| >= 2 && k < |orig| && Filled(c, orig, k, done)
      requires it == |done| && entries == done + orig[k..] && (tableStart <==> k == 0)
      requires Listed(c, orig) && Named(c, done, index, num)
      modifies this
      ensures Filled(c, orig, k + 1, done') && it' == |done'| && entries == done' + orig[k + 1..]
      ensures Named(c, done', index', num')
    {
      var pre := entries[it];
      index', num', it', done' := index, num, it, done;
      if it + 1 < |entries| {
        if tableStart {
          index', num', it', done' := FillStart(pre, orig, c, index, num);
        }
        index', num', it', done' := FillBetween(orig, k, done', c, index', num', it');
      } else {
        index', num', it', done' := FillEnd(orig, k, done, c, index, num, it);
      }
    }

    method FillStart(pre: Tablet, ghost orig: seq<Tablet>, c: Catalogue, index: nat, num: nat)
      returns (index': nat, num': nat, it': nat, ghost done': seq<Tablet>)
      requires entries != [] && entries == orig && pre == entries[0] && ValidRange(pre)
      requires Proper(c) && num >= c.tabletNum
      modifies this
      ensures entries == done' + orig && it' == |done'| && PartTiles(done' + [pre])
      ensures (forall t :: t in done' ==> Added(c, t)) && Named(c, done', index', num')
    {
      index', num', it', done' := index, num, 0, [];
      if pre.start == [] {
        FilledStart(pre, Tablet([], [], []));
        return;
      }
      var name, i, m := GetTabletName(c, index, num);
      var gap := Tablet([], pre.start, PathOf(c, name));
      FilledStart(pre, gap);
      NamedAdded(c, [], gap, index, num, name, i, m);
      entries := Insert(entries, gap);
      index', num', it', done' := i, m, 1, [gap];
      assert [] + [gap] == [gap];
    }

    method FillBetween(ghost orig: seq<Tablet>, ghost k: nat, ghost done: seq<Tablet>, c: Catalogue, index: nat,
                       num: nat, it: nat)
      returns (index': nat, num': nat, it': nat, ghost done': seq<Tablet>)
      requires Ordered(orig) && Apart(orig) && k + 1 < |orig| && PartTiles(done + [orig[k]])
      requires it == |done| && entries == done + orig[k..]
      requires forall t :: t in orig[..k] ==> t in done
      requires forall t :: t in done ==> t in orig[..k] || Added(c, t)
      requires Listed(c, orig) && Named(c, done, index, num)
      modifies this
      ensures Filled(c, orig, k + 1, done') && it' == |done'| && entries == done' + orig[k + 1..]
      ensures Named(c, done', index', num')
    {
      var pre, next := entries[it], entries[it + 1];
      NamedOwn(c, orig, k, done, index, num);
      assert orig[k..] == [pre] + orig[k + 1..] && next == orig[k + 1];
      index', num', it', done' := index, num, it + 1, done + [orig[k]];
      if !LexLt(pre.end, next.start) {
        FilledNext(c, orig, k, done);
        return;
      }
      ghost var gap;
      assert entries == done + [pre] + orig[k + 1..];
      index', num', gap := AddGap(orig[k + 1..], done, pre, next.start, c, index, num);
      FilledGap(c, orig, k, done, gap);
      it', done' := it' + 1, done + [pre] + [gap];
    }

    /** Insert the range from `pre` to `end` under the next name. */
    method AddGap(ghost rest: seq<Tablet>, ghost done: seq<Tablet>, pre: Tablet, end: Bytes, c: Catalogue, index: nat,
                  num: nat)
      returns (index': nat, num': nat, ghost gap: Tablet)
      requires entries == done + [pre] + rest && PartTiles(done + [pre]) && pre.end != [] && Ordered(rest)
      requires rest != [] ==> LexLt(pre.end, rest[0].start)
      requires Proper(c) && Named(c, done + [pre], index, num)
      modifies this
      ensures entries == done + [pre] + [gap] + rest && gap.start == pre.end && gap.end == end
      ensures Named(c, done + [pre] + [gap], index', num') && Added(c, gap)
    {
      var name, i, m := GetTabletName(c, index, num);
      var t := Tablet(pre.end, end, PathOf(c, name));
      gap := t;
      NamedAdded(c, done + [pre], t, index, num, name, i, m);
      InsertGap(done, pre, rest, t);
      entries := Insert(entries, t);
      return i, m, gap;
    }

    method FillEnd(ghost orig: seq<Tablet>, ghost k: nat, ghost done: seq<Tablet>, c: Catalogue, index: nat, num: nat,
                   it: nat)
      returns (index': nat, num': nat, it': nat, ghost done': seq<Tablet>)
      requires 0 < k && k + 1 == |orig| && Filled(c, orig, k, done)
      requires it == |done| && entries == done + orig[k..]
      requires Listed(c, orig) && Named(c, done, index, num)
      modifies this
      ensures Filled(c, orig, k + 1, done') && it' == |done'| && entries == done' && Named(c, done', index', num')
    {
      var pre := entries[it];
      NamedOwn(c, orig, k, done, index, num);
      assert orig[k..] == [pre];
      index', num', it', done' := index, num, it + 1, done + [pre];
      if pre.end == [] {
        FilledLast(c, orig, k, done);
        return;
      }
      ghost var gap;
      assert entries == done + [pre] + [];
      index', num', gap := AddGap([], done, pre, [], c, index, num);
      FilledEnd(c, orig, k, done, gap);
      it', done' := it' + 1, done + [pre] + [gap];
      assert entries == done' + [];
    }

    method FixOnly(c: Catalogue)
      requires |entries| == 1 && ValidRange(entries[0]) && Listed(c, entries)
      modifies this
      ensures Tiles(entries) && old(entries[0]) in entries
      ensures forall t :: t in entries ==> t == old(entries[0]) || Added(c, t)
      ensures PathsDistinct(entries)
    {
      ghost var orig := entries;
      var only := entries[0];
      ghost var done;
      var index, num, it;
      index, num, it, done := FillStart(only, orig, c, 0, c.tabletNum);
      NamedOwn(c, orig, 0, done, index, num);
      assert orig == [only];
      CloseEnd(done, only, c, index, num);
    }

    method CloseEnd(ghost done: seq<Tablet>, only: Tablet, c: Catalogue, index: nat, num: nat)
      requires entries == done + [only] && PartTiles(entries) && Proper(c) && Named(c, entries, index, num)
      requires forall t :: t in done ==> Added(c, t)
      modifies this
      ensures Tiles(entries) && only in entries
      ensures forall t :: t in entries ==> t == only || Added(c, t)
      ensures PathsDistinct(entries)
    {
      if only.end == [] {
        return;
      }
      assert entries == done + [only] + [];
      var index', num';
      ghost var gap;
      index', num', gap := AddGap([], done, only, [], c, index, num);
      assert entries == done + [only] + [gap];
      TilesClosed(done + [only], gap);
    }
  }

  lemma TilesClosed(s: seq<Tablet>, gap: Tablet)
    requires PartTiles(s) && s[|s| - 1].end != [] && gap.start == s[|s| - 1].end && gap.end == []
    ensures Tiles(s + [gap])
  {
    var u := s + [gap];
    assert forall i :: 0 <= i < |s| ==> u[i] == s[i];
  }
}

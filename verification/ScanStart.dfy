/** A scan whose start key lies inside a column, when the qualifier count starts at zero: the
    column that begins before the start key goes uncounted. */
module ScanStart {
  import opened Bytes
  import opened Cells
  import opened Frontier
  import opened Strategy
  import opened Visibility
  import opened ReadSemantics
  import opened TabletScan
  import opened ScanLimits
  import Semantics = ScanSemantics

  /** Qualifier names of every length. */
  function Qual(k: nat): (r: Bytes)
    ensures |r| == k
  {
    seq(k, _ => 1)
  }

  lemma {:induction false} QualOrder(j: nat, k: nat)
    requires j < k
    ensures LexLt(Qual(j), Qual(k))
  {
    if j > 0 {
      assert Qual(j)[1..] == Qual(j - 1) && Qual(k)[1..] == Qual(k - 1);
      QualOrder(j - 1, k - 1);
    }
  }

  function Version(cf: Bytes, k: nat, ts: nat): Cell {
    Cell([1], cf, Qual(k), ts, Kind.Value, 0, [])
  }

  /** Two versions of the first column, the newer one before the start key, then one
      version of each further column, one column more than the limit in all. */
  predicate Straddles(s: Scan, cf: Bytes) {
    && s.env == Env(map[cf := Family(2, 0)], 0) && (s.opts.families == {} || cf in s.opts.families)
    && |s.cells| == s.opts.maxQualifiers + 2 && s.cells[0] == Version(cf, 0, 2)
    && (forall i :: 1 <= i < |s.cells| ==> s.cells[i] == Version(cf, i - 1, 1))
    && s.start == s.cells[1] && s.end == []
  }

  function Straddling(o: Options, cf: Bytes): (s: Scan)
    requires o.families == {} || cf in o.families
    ensures Straddles(s, cf) && s.opts == o
  {
    var cells := [Version(cf, 0, 2)] +
                 seq(o.maxQualifiers + 1, i requires 0 <= i < o.maxQualifiers + 1 => Version(cf, i, 1));
    Scan(Env(map[cf := Family(2, 0)], 0), cells, o, cells[1], [])
  }

  lemma StraddleSorted(s: Scan, cf: Bytes)
    requires Straddles(s, cf)
    ensures Sorted(s.cells)
  {
    forall i, j | 0 <= i < j < |s.cells| ensures Before(s.cells[i], s.cells[j]) {
      if j >= 2 { QualOrder(if i == 0 then 0 else i - 1, j - 1); }
    }
  }

  lemma StraddlePlain(s: Scan, cf: Bytes)
    requires Straddles(s, cf)
    ensures Ordered(s) && Semantics.PlainHistory(s, 0)
  {
    StraddleSorted(s, cf);
    var h := Elems(s.cells);
    forall c | c in h ensures WellFormed(c) && c.kind.Value? {
      var i :| 0 <= i < |s.cells| && s.cells[i] == c;
    }
    forall a, b | a in h && b in h && a != b ensures Before(a, b) || Before(b, a) {
      var i :| 0 <= i < |s.cells| && s.cells[i] == a;
      var j :| 0 <= j < |s.cells| && s.cells[j] == b;
      assert i < j ==> Before(a, b);
      assert j < i ==> Before(b, a);
    }
  }

  lemma FewVersions(s: Scan, cf: Bytes, i: nat)
    requires Straddles(s, cf) && i < |s.cells|
    ensures |Versions(Elems(s.cells), s.cells[i])| <= 2
  {
    var k := if i == 0 then 0 else i - 1;
    var two := {Version(cf, k, 2), Version(cf, k, 1)};
    forall v | v in Versions(Elems(s.cells), s.cells[i]) ensures v in two {
      var j :| 0 <= j < |s.cells| && s.cells[j] == v;
      assert |v.qual| == k;
    }
    var vs := Versions(Elems(s.cells), s.cells[i]);
    assert two == vs + (two - vs);
  }

  lemma AllVisible(s: Scan, cf: Bytes, i: nat)
    requires Straddles(s, cf) && i < |s.cells|
    ensures s.cells[i] in Semantics.Candidates(s) && !Skipped(s, s.cells[i])
  {
    StraddlePlain(s, cf);
    FewVersions(s, cf, i);
    var h := Elems(s.cells);
    forall c | c in h ensures c.kind.Value? {
      var j :| 0 <= j < |s.cells| && s.cells[j] == c;
    }
    assert s.cells[i] in h;
    assert Visible(s.env, h, s.cells[i]);
    Semantics.CandidatesVisible(s);
  }

  /** The strategy lets every cell through. */
  lemma NoneDropped(s: Scan, cf: Bytes, i: nat, st: State)
    requires Straddles(s, cf) && i < |s.cells| && ScanInv(s.env, Semantics.FedCells(s, 0, i), st)
    ensures !ScanStep(s.env, st, s.cells[i]).1 && !Skipped(s, s.cells[i])
    ensures ScanInv(s.env, Semantics.FedCells(s, 0, i + 1), ScanStep(s.env, st, s.cells[i]).0)
  {
    StraddlePlain(s, cf);
    AllVisible(s, cf, i);
    Semantics.VerdictIsCandidate(s, 0, i, st);
  }

  /** The first cell is passed over, the second is a further version of its column, and
      each one after that opens a column. */
  lemma StraddleStep(s: Scan, cf: Bytes, st: State, x: Cursor)
    requires Straddles(s, cf) && x.pos < |s.cells| && ScanInv(s.env, Semantics.FedCells(s, 0, x.pos), st)
    requires s.opts.maxVersions >= 2
    requires x.pos == 0 ==> x == NewCursor(0, 0)
    requires x.pos == 1 ==> x == Cursor(1, [1], cf, Qual(0), 1, 0)
    requires x.pos >= 2 ==> x.lastKey == [1] && x.lastCol == cf && x.lastQual == Qual(x.pos - 2) && x.quNum == x.pos - 2
    ensures var (st', x', hits) := Step(s, st, x);
            && st' == ScanStep(s.env, st, s.cells[x.pos]).0 && x'.pos == x.pos + 1
            && x'.lastKey == [1] && x'.lastCol == cf
            && x'.lastQual == Qual(if x.pos == 0 then 0 else x.pos - 1)
            && x'.quNum == (if x.pos == 0 then 0 else x.pos - 1)
            && (x.pos == 0 ==> x'.versionNum == 1) && (x.pos >= 1 ==> hits == [Hit(x.pos, [])])
  {
    NoneDropped(s, cf, x.pos, st);
    StraddleSorted(s, cf);
    BeforeAsym(s.start, s.start);
    if x.pos >= 2 { BeforeAsym(s.start, s.cells[x.pos]); }
  }

  /** The cursor after `x.pos` cells. */
  ghost predicate Stands(s: Scan, cf: Bytes, st: State, x: Cursor) {
    && Straddles(s, cf) && x.pos <= |s.cells| && ScanInv(s.env, Semantics.FedCells(s, 0, x.pos), st)
    && s.opts.maxVersions >= 2
    && (x.pos == 0 ==> x == NewCursor(0, 0))
    && (x.pos == 1 ==> x == Cursor(1, [1], cf, Qual(0), 1, 0))
    && (x.pos >= 2 ==> x.lastKey == [1] && x.lastCol == cf && x.lastQual == Qual(x.pos - 2) && x.quNum == x.pos - 2)
  }

  lemma StandsNext(s: Scan, cf: Bytes, st: State, x: Cursor) returns (st': State, x': Cursor, hits: seq<Hit>)
    requires Stands(s, cf, st, x) && x.pos < |s.cells|
    ensures Accepted(s, st, x) == hits + Accepted(s, st', x')
    ensures Stands(s, cf, st', x') && x'.pos == x.pos + 1
    ensures x.pos >= 1 ==> hits == [Hit(x.pos, [])]
  {
    var step := Step(s, st, x);
    st', x', hits := step.0, step.1, step.2;
    NoneDropped(s, cf, x.pos, st);
    StraddleStep(s, cf, st, x);
    StepAdvances(s, st, x);
  }

  ghost predicate AllFrom(s: Scan, i: nat, acc: set<nat>) {
    forall k: nat :: 1 <= k && i <= k < |s.cells| ==> k in acc
  }

  lemma AllFromNext(s: Scan, i: nat, hits: seq<Hit>, rest: seq<Hit>)
    requires AllFrom(s, i + 1, Ats(rest)) && (i >= 1 ==> hits == [Hit(i, [])])
    ensures AllFrom(s, i, Ats(hits + rest))
  {
    AtsConcat(hits, rest);
    if i >= 1 { assert Hit(i, []) in hits; }
  }

  lemma {:induction false} AcceptsRest(s: Scan, cf: Bytes, st: State, x: Cursor)
    requires Stands(s, cf, st, x)
    ensures AllFrom(s, x.pos, Ats(Accepted(s, st, x)))
    decreases |s.cells| - x.pos
  {
    if x.pos < |s.cells| {
      var st', x', hits := StandsNext(s, cf, st, x);
      AcceptsRest(s, cf, st', x');
      AllFromNext(s, x.pos, hits, Accepted(s, st', x'));
    }
  }

  lemma {:induction false} ManyQuals(q: set<Bytes>, n: nat)
    requires forall k: nat :: k < n ==> Qual(k) in q
    ensures |q| >= n
    decreases n
  {
    if n > 0 {
      var rest := q - {Qual(n - 1)};
      forall k: nat | k < n - 1 ensures Qual(k) in rest {
        assert |Qual(k)| != |Qual(n - 1)|;
      }
      ManyQuals(rest, n - 1);
    }
  }

  /** Starting inside a column with a qualifier count of zero and room for more than one
      version, the scan shows one qualifier more than its limit. */
  lemma StraddleExceeds(s: Scan, cf: Bytes)
    requires Straddles(s, cf) && s.opts.maxVersions >= 2
    ensures Ordered(s) && !RespectsOwn(s, AcceptedAt(s, 0, 0))
  {
    StraddlePlain(s, cf);
    FreshInv(s.env);
    assert Semantics.FedCells(s, 0, 0) == {};
    AcceptsRest(s, cf, Fresh, NewCursor(0, 0));
    var acc := AcceptedAt(s, 0, 0);
    if forall i :: i in acc ==> i < |s.cells| {
      var q := Quals(s.cells, acc, s.cells[1]);
      forall k: nat | k < s.opts.maxQualifiers + 1 ensures Qual(k) in q {
        assert k + 1 in acc && SameCol(s.cells[k + 1], s.cells[1]) && s.cells[k + 1].qual == Qual(k);
      }
      ManyQuals(q, s.opts.maxQualifiers + 1);
    }
  }

  /** A scan keeps its version and qualifier limits on every history and from every start
      key if and only if neither limit is zero and, unless it shows one version of a
      column only, its qualifier count starts at one or more. */
  lemma LimitsRespectedIff(o: Options, quNum: nat)
    ensures AlwaysRespected(o, quNum) <==>
              o.maxVersions >= 1 && o.maxQualifiers >= 1 && (quNum >= 1 || o.maxVersions == 1)
  {
    if o.maxVersions == 0 || o.maxQualifiers == 0 {
      ZeroExceeded(o, quNum);
    } else if quNum >= 1 || o.maxVersions == 1 {
      AlwaysWithin(o, quNum);
    } else {
      var cf := ShownFamily(o);
      StraddleExceeds(Straddling(o, cf), cf);
    }
  }
}

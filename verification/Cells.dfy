/** The decoded cells of a tablet, the order in which an iterator delivers them,
    and the schema facts the compact strategy consults. */
module Cells {
  import opened Bytes

  /** leveldb::TeraKeyType, in the order of its numeric values. */
  datatype Kind =
    | ForSeek
    | Del
    | DelColumn
    | DelQualifiers
    | DelQualifier
    | Value
    | Add
    | PutIfAbsent
    | Append
    | AddInt64
  {
    function Code(): nat {
      match this
      case ForSeek => 0
      case Del => 1
      case DelColumn => 2
      case DelQualifiers => 3
      case DelQualifier => 4
      case Value => 5
      case Add => 7
      case PutIfAbsent => 8
      case Append => 9
      case AddInt64 => 10
    }

    predicate IsAtomic() {
      Add? || AddInt64? || PutIfAbsent? || Append?
    }
  }

  /** One entry of the store: a decoded tera key, its sequence number and its value. */
  datatype Cell = Cell(row: Bytes, cf: Bytes, qual: Bytes, ts: nat, kind: Kind, seqno: nat, value: Bytes)

  datatype Family = Family(maxVersions: nat, timeToLive: int)

  type Schema = map<Bytes, Family>

  /** What a pass over the store knows besides the cells: the schema and one clock reading. */
  datatype Env = Env(schema: Schema, now: int)

  /** DropIllegalColumnFamily: only a row mark may carry an undeclared family. */
  predicate Legal(env: Env, c: Cell) {
    c.kind.Del? || c.cf in env.schema
  }

  /** DropByLifeTime, guarded as both callers guard it. */
  predicate Expired(env: Env, c: Cell) {
    c.kind.Code() >= Kind.Value.Code() && c.cf in env.schema &&
    var ttl := env.schema[c.cf].timeToLive * 1000000;
    ttl > 0 && c.ts + ttl <= env.now
  }

  /** A live cell gets past the two checks that precede every state change. */
  predicate Live(env: Env, c: Cell) {
    Legal(env, c) && !Expired(env, c)
  }

  /** A put of a declared family lives until its family's time to live has passed since its
      timestamp, in seconds against microseconds, and for ever if there is none; marks do not
      expire. */
  lemma LivesUntil(env: Env, c: Cell)
    requires c.cf in env.schema
    ensures var seconds := env.schema[c.cf].timeToLive;
            Live(env, c) <==>
              c.kind.Del? || c.kind.DelColumn? || c.kind.DelQualifiers? || c.kind.DelQualifier? || c.kind.ForSeek? ||
              seconds <= 0 || env.now - c.ts < 1000000 * seconds
  {
  }

  predicate SameRow(a: Cell, b: Cell) {
    a.row == b.row
  }

  predicate SameCol(a: Cell, b: Cell) {
    a.row == b.row && a.cf == b.cf
  }

  predicate SameCell(a: Cell, b: Cell) {
    a.row == b.row && a.cf == b.cf && a.qual == b.qual
  }

  /** The order of tera keys: row, family and qualifier ascending, newest timestamp
      first, then the type code ascending. */
  predicate Before(a: Cell, b: Cell) {
    LexLt(a.row, b.row) ||
    (a.row == b.row &&
     (LexLt(a.cf, b.cf) ||
      (a.cf == b.cf &&
       (LexLt(a.qual, b.qual) ||
        (a.qual == b.qual &&
         (a.ts > b.ts || (a.ts == b.ts && a.kind.Code() < b.kind.Code())))))))
  }

  /** The shape every written cell has: row marks carry no family and no qualifier,
      column marks carry no qualifier. */
  predicate WellFormed(c: Cell) {
    && c.row != []
    && !c.kind.ForSeek?
    && (c.kind.Del? ==> c.cf == [] && c.qual == [])
    && (c.kind.DelColumn? ==> c.qual == [])
  }

  ghost predicate AllWellFormed(h: set<Cell>) {
    forall c :: c in h ==> WellFormed(c)
  }

  /** No two cells of the set share a tera key. */
  ghost predicate Distinct(h: set<Cell>) {
    forall a, b :: a in h && b in h && a != b ==> Before(a, b) || Before(b, a)
  }

  ghost predicate NoAtomics(h: set<Cell>) {
    forall c :: c in h ==> !c.kind.IsAtomic()
  }

  ghost predicate Sorted(h: seq<Cell>) {
    forall i, j :: 0 <= i < j < |h| ==> Before(h[i], h[j])
  }

  ghost function Elems(h: seq<Cell>): set<Cell> {
    set c | c in h
  }

  /** `c` comes after every cell of `p`. */
  ghost predicate After(p: set<Cell>, c: Cell) {
    forall e :: e in p ==> Before(e, c)
  }

  lemma BeforeAsym(a: Cell, b: Cell)
    ensures !(Before(a, b) && Before(b, a))
    ensures !Before(a, a)
  {
    LexAsym(a.row, b.row);
    LexAsym(a.cf, b.cf);
    LexAsym(a.qual, b.qual);
    LexAsym(a.row, a.row);
    LexAsym(a.cf, a.cf);
    LexAsym(a.qual, a.qual);
  }

  lemma BeforeTrans(a: Cell, b: Cell, c: Cell)
    requires Before(a, b) && Before(b, c)
    ensures Before(a, c)
  {
    if LexLt(a.row, b.row) && LexLt(b.row, c.row) { LexTrans(a.row, b.row, c.row); }
    if LexLt(a.cf, b.cf) && LexLt(b.cf, c.cf) { LexTrans(a.cf, b.cf, c.cf); }
    if LexLt(a.qual, b.qual) && LexLt(b.qual, c.qual) { LexTrans(a.qual, b.qual, c.qual); }
  }

  /** Cells of one row, one family or one column are contiguous in the order, and
      inside a column the timestamps do not increase. */
  lemma Grouping(a: Cell, b: Cell, c: Cell)
    requires Before(a, b) && Before(b, c)
    ensures SameRow(a, c) ==> SameRow(a, b)
    ensures SameCol(a, c) ==> SameCol(a, b)
    ensures SameCell(a, c) ==> SameCell(a, b)
  {
    LexAsym(a.row, b.row);
    LexAsym(a.cf, b.cf);
    LexAsym(a.qual, b.qual);
  }

  lemma NewestFirst(a: Cell, b: Cell)
    requires Before(a, b) && SameCell(a, b)
    ensures a.ts >= b.ts
  {
    LexAsym(a.row, a.row);
    LexAsym(a.cf, a.cf);
    LexAsym(a.qual, a.qual);
  }

  /** A stream is determined by its cells: sorting leaves no choice. */
  lemma {:induction false} SortedUnique(a: seq<Cell>, b: seq<Cell>)
    requires Sorted(a) && Sorted(b) && Elems(a) == Elems(b)
    ensures a == b
    decreases |a|
  {
    if a == [] {
      assert forall i :: 0 <= i < |b| ==> b[i] in Elems(b);
    } else {
      assert a[0] in Elems(b);
      assert b != [];
      var j :| 0 <= j < |b| && b[j] == a[0];
      assert b[0] in Elems(a);
      var k :| 0 <= k < |a| && a[k] == b[0];
      if j > 0 {
        BeforeAsym(b[0], a[0]);
        assert false;
      }
      forall c ensures c in a[1..] <==> c in b[1..] {
        if c in a[1..] {
          BeforeAsym(a[0], c);
          assert c in Elems(a);
        }
        if c in b[1..] {
          BeforeAsym(b[0], c);
          assert c in Elems(b);
        }
      }
      assert Elems(a[1..]) == Elems(b[1..]);
      SortedUnique(a[1..], b[1..]);
      assert a == [a[0]] + a[1..] && b == [b[0]] + b[1..];
    }
  }
}

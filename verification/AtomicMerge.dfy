/** AtomicMergeStrategy and InternalMergeProcess: a run of atomic operations on one column
    is folded into one value, when it is read and when it is compacted. */
module AtomicMerge {
  import opened Collections
  import opened Bytes
  import opened Numeral
  import opened Coding
  import opened Cells
  import opened Strategy

  // ---------- what a run of operands amounts to ----------

  function Reversed(b: Bytes): (r: Bytes)
    ensures |r| == |b|
  {
    if b == [] then [] else Reversed(b[1..]) + [b[0]]
  }

  /** The host's little-endian reading of an eight-byte integer. */
  function DecodeFixed64(b: Bytes): (r: nat)
    requires |b| >= 8
    ensures r < TWO_64
  {
    Num8(Reversed(b[..8]));
    Num(Reversed(b[..8]))
  }

  function EncodeFixed64(v: nat): (r: Bytes)
    ensures |r| == 8
  {
    Reversed(Digits(8, v))
  }

  /** Counters need eight bytes; the other operations take any value. */
  predicate Operand(k: Kind, v: Bytes) {
    k.Add? || k.AddInt64? ==> |v| >= 8
  }

  ghost predicate Operands(k: Kind, vals: seq<Bytes>) {
    forall i :: 0 <= i < |vals| ==> Operand(k, vals[i])
  }

  function Counter(k: Kind, v: Bytes): nat
    requires (k.Add? || k.AddInt64?) && Operand(k, v)
  {
    if k.Add? then DecodeBigEndian(v) else DecodeFixed64(v)
  }

  function EncodeCounter(k: Kind, n: nat): Bytes
    requires k.Add? || k.AddInt64?
  {
    if k.Add? then Digits(8, n) else EncodeFixed64(n)
  }

  ghost function Total(k: Kind, vals: seq<Bytes>): nat
    requires (k.Add? || k.AddInt64?) && Operands(k, vals)
  {
    if vals == [] then 0 else Counter(k, vals[0]) + Total(k, vals[1..])
  }

  /** Oldest first, the operands being listed newest first. */
  ghost function Joined(vals: seq<Bytes>): Bytes {
    if vals == [] then [] else Joined(vals[1..]) + vals[0]
  }

  /** The value of a run of operands of one kind, newest first: the sum modulo 2^64, the
      oldest-first concatenation, or the oldest value. */
  ghost function Fold(k: Kind, vals: seq<Bytes>): Bytes
    requires k.IsAtomic() && vals != [] && Operands(k, vals)
  {
    match k
    case Add => EncodeCounter(k, Wrap(Total(k, vals)))
    case AddInt64 => EncodeCounter(k, Wrap(Total(k, vals)))
    case PutIfAbsent => vals[|vals| - 1]
    case Append => Joined(vals)
  }

  lemma {:induction false} ReversedTwice(b: Bytes)
    ensures Reversed(Reversed(b)) == b
  {
    if b != [] {
      ReversedSnoc(Reversed(b[1..]), b[0]);
      ReversedTwice(b[1..]);
    }
  }

  lemma {:induction false} ReversedSnoc(b: Bytes, x: Byte)
    ensures Reversed(b + [x]) == [x] + Reversed(b)
  {
    if b == [] {
      assert b + [x] == [x];
      assert [x][1..] == [];
    } else {
      assert (b + [x])[1..] == b[1..] + [x];
      ReversedSnoc(b[1..], x);
    }
  }

  /** Reading back a stored counter gives the counter. */
  lemma CounterRoundTrip(k: Kind, n: nat)
    requires (k.Add? || k.AddInt64?) && n < TWO_64
    ensures |EncodeCounter(k, n)| == 8 && Counter(k, EncodeCounter(k, n)) == n
  {
    RoundTrip(n);
    if k.AddInt64? {
      ReversedTwice(Digits(8, n));
      assert EncodeFixed64(n)[..8] == EncodeFixed64(n);
      PowValues();
      FitsDigits(8, n);
    }
  }

  /** The counter of ADD is stored highest byte first, that of ADD_INT64 lowest byte first. */
  lemma CounterLayout(n: nat)
    requires n < TWO_64
    ensures EncodeCounter(Kind.Add, n)[7] as nat == n % 256 && EncodeCounter(Kind.AddInt64, n)[0] as nat == n % 256
    ensures Num(EncodeCounter(Kind.Add, n)) == n && Num(Reversed(EncodeCounter(Kind.AddInt64, n))) == n
  {
    assert Digits(8, n) == Digits(7, n / 256) + [(n % 256) as Byte];
    ReversedSnoc(Digits(7, n / 256), (n % 256) as Byte);
    ReversedTwice(Digits(8, n));
    PowValues();
    FitsDigits(8, n);
  }

  lemma {:induction false} TotalConcat(k: Kind, a: seq<Bytes>, b: seq<Bytes>)
    requires (k.Add? || k.AddInt64?) && Operands(k, a) && Operands(k, b)
    ensures Operands(k, a + b) && Total(k, a + b) == Total(k, a) + Total(k, b)
  {
    if a == [] {
      assert a + b == b;
    } else {
      assert (a + b)[1..] == a[1..] + b;
      TotalConcat(k, a[1..], b);
    }
  }

  lemma TotalOne(k: Kind, v: Bytes)
    requires (k.Add? || k.AddInt64?) && Operand(k, v)
    ensures Total(k, [v]) == Counter(k, v)
  {
    assert [v][1..] == [];
  }

  lemma {:induction false} JoinedConcat(a: seq<Bytes>, b: seq<Bytes>)
    ensures Joined(a + b) == Joined(b) + Joined(a)
  {
    if a == [] {
      assert a + b == b;
    } else {
      assert (a + b)[1..] == a[1..] + b;
      JoinedConcat(a[1..], b);
    }
  }

  /** Arithmetic on 64-bit counters. */
  function Wrap(n: nat): (r: nat)
    ensures r < TWO_64
  {
    n % TWO_64
  }

  lemma WrapInside(x: nat, y: nat, z: nat, a: nat, b: nat)
    requires a == x + Wrap(y) + z && b == x + y + z
    ensures Wrap(a) == Wrap(b)
  {
    assert y == TWO_64 * (y / TWO_64) + Wrap(y);
    assert b == TWO_64 * (y / TWO_64) + a;
  }

  lemma FoldIsOperand(k: Kind, vals: seq<Bytes>)
    requires k.IsAtomic() && vals != [] && Operands(k, vals)
    ensures Operand(k, Fold(k, vals))
  {
    if k.Add? || k.AddInt64? { CounterRoundTrip(k, Wrap(Total(k, vals))); }
  }

  lemma TotalThree(k: Kind, a: seq<Bytes>, m: seq<Bytes>, b: seq<Bytes>)
    requires (k.Add? || k.AddInt64?) && Operands(k, a) && Operands(k, m) && Operands(k, b)
    ensures Operands(k, a + m + b) && Total(k, a + m + b) == Total(k, a) + Total(k, m) + Total(k, b)
  {
    TotalConcat(k, a + m, b);
    TotalConcat(k, a, m);
  }

  lemma TotalInside(k: Kind, a: seq<Bytes>, f: Bytes, s: seq<Bytes>, b: seq<Bytes>)
    requires (k.Add? || k.AddInt64?) && Operands(k, a) && Operands(k, s) && Operands(k, b)
    requires Operand(k, f) && Counter(k, f) == Wrap(Total(k, s))
    ensures Operands(k, a + [f] + b) && Operands(k, a + s + b)
    ensures Wrap(Total(k, a + [f] + b)) == Wrap(Total(k, a + s + b))
  {
    TotalThree(k, a, s, b);
    TotalThree(k, a, [f], b);
    TotalOne(k, f);
    WrapInside(Total(k, a), Total(k, s), Total(k, b), Total(k, a + [f] + b), Total(k, a + s + b));
  }

  lemma FoldInsideAppend(a: seq<Bytes>, s: seq<Bytes>, b: seq<Bytes>)
    ensures Joined(a + [Joined(s)] + b) == Joined(a + s + b)
  {
    var f := [Joined(s)];
    JoinedConcat(a + s, b);
    JoinedConcat(a, s);
    JoinedConcat(a + f, b);
    JoinedConcat(a, f);
    assert Joined(f) == Joined(s) by { assert f[1..] == []; }
  }

  // ---------- the operations as they were made ----------

  /** What one operation makes of the column's value, if it has one. */
  ghost function Perform(k: Kind, current: Option<Bytes>, v: Bytes): Bytes
    requires k.IsAtomic() && Operand(k, v) && (current.Some? ==> Operand(k, current.value))
  {
    match k
    case Add => EncodeCounter(k, Wrap(Standing(k, current) + Counter(k, v)))
    case AddInt64 => EncodeCounter(k, Wrap(Standing(k, current) + Counter(k, v)))
    case PutIfAbsent => if current.Some? then current.value else v
    case Append => (if current.Some? then current.value else []) + v
  }

  ghost function Standing(k: Kind, current: Option<Bytes>): nat
    requires (k.Add? || k.AddInt64?) && (current.Some? ==> Operand(k, current.value))
  {
    if current.Some? then Counter(k, current.value) else 0
  }

  /** The value after the operations `vals`, listed newest first, made oldest first. */
  ghost function Performed(k: Kind, vals: seq<Bytes>): (r: Option<Bytes>)
    requires k.IsAtomic() && Operands(k, vals)
    ensures r.Some? ==> Operand(k, r.value)
  {
    if vals == [] then None
    else
      var v := Perform(k, Performed(k, vals[1..]), vals[0]);
      if k.Add? || k.AddInt64? then
        CounterRoundTrip(k, Wrap(Standing(k, Performed(k, vals[1..])) + Counter(k, vals[0])));
        Some(v)
      else Some(v)
  }

  lemma WrapAdd(x: nat, y: nat)
    ensures Wrap(Wrap(y) + x) == Wrap(x + y)
  {
    WrapInside(x, y, 0, Wrap(y) + x, x + y);
  }

  lemma CounterStep(k: Kind, current: Bytes, total: nat, v: Bytes)
    requires (k.Add? || k.AddInt64?) && Operand(k, v) && current == EncodeCounter(k, Wrap(total))
    ensures Operand(k, current) && Perform(k, Some(current), v) == EncodeCounter(k, Wrap(Counter(k, v) + total))
  {
    CounterRoundTrip(k, Wrap(total));
    WrapAdd(Counter(k, v), total);
  }

  /** The newest operation, on what the older ones amount to. */
  lemma FoldStep(k: Kind, vals: seq<Bytes>)
    requires k.IsAtomic() && |vals| >= 2 && Operands(k, vals)
    ensures Operand(k, Fold(k, vals[1..])) && Perform(k, Some(Fold(k, vals[1..])), vals[0]) == Fold(k, vals)
  {
    if k.Add? || k.AddInt64? {
      CounterStep(k, Fold(k, vals[1..]), Total(k, vals[1..]), vals[0]);
    }
  }

  lemma FoldOne(k: Kind, v: Bytes)
    requires k.IsAtomic() && Operand(k, v)
    ensures Perform(k, None, v) == Fold(k, [v])
  {
    assert [v][1..] == [];
    if k.Add? || k.AddInt64? {
      TotalOne(k, v);
    } else {
      assert [] + v == v && Joined([]) == [];
    }
  }

  /** The fold of a run is what its operations make of the column one after the other. */
  lemma {:induction false} FoldIsPerformed(k: Kind, vals: seq<Bytes>)
    requires k.IsAtomic() && vals != [] && Operands(k, vals)
    ensures Performed(k, vals) == Some(Fold(k, vals))
    decreases |vals|
  {
    if |vals| == 1 {
      assert vals == [vals[0]] && vals[1..] == [];
      FoldOne(k, vals[0]);
    } else {
      FoldIsPerformed(k, vals[1..]);
      FoldStep(k, vals);
    }
  }

  /** Folding a contiguous part of a run first does not change what the run amounts to. */
  lemma FoldInside(k: Kind, a: seq<Bytes>, s: seq<Bytes>, b: seq<Bytes>)
    requires k.IsAtomic() && s != [] && Operands(k, a) && Operands(k, s) && Operands(k, b)
    ensures Operand(k, Fold(k, s))
    ensures Operands(k, a + s + b) && Operands(k, a + [Fold(k, s)] + b)
    ensures Fold(k, a + [Fold(k, s)] + b) == Fold(k, a + s + b)
  {
    FoldIsOperand(k, s);
    if k.Add? || k.AddInt64? {
      CounterRoundTrip(k, Wrap(Total(k, s)));
      TotalInside(k, a, Fold(k, s), s, b);
    } else if k.Append? {
      FoldInsideAppend(a, s, b);
    }
  }

  lemma TotalSnoc(k: Kind, vals: seq<Bytes>, v: Bytes)
    requires (k.Add? || k.AddInt64?) && Operands(k, vals) && Operand(k, v)
    ensures Operands(k, vals + [v])
    ensures Wrap(Total(k, vals + [v])) == Wrap(Wrap(Total(k, vals)) + Counter(k, v))
  {
    TotalConcat(k, vals, [v]);
    TotalOne(k, v);
    WrapInside(0, Total(k, vals), Counter(k, v), Wrap(Total(k, vals)) + Counter(k, v), Total(k, vals + [v]));
  }

  lemma JoinedSnoc(vals: seq<Bytes>, v: Bytes)
    ensures Joined(vals + [v]) == v + Joined(vals)
  {
    JoinedConcat(vals, [v]);
    assert [v][1..] == [];
  }

  // ---------- the accumulator ----------

  class AtomicMergeStrategy {
    var latestKeyType: Kind
    var counter: nat
    var int64: nat
    var appendBuffer: Bytes
    var mergedValue: Bytes

    /** The accumulator stands for the operands `vals`, newest first. */
    ghost predicate Holds(vals: seq<Bytes>)
      reads this
    {
      && latestKeyType.IsAtomic() && vals != [] && Operands(latestKeyType, vals)
      && (latestKeyType.Add? ==> counter == Wrap(Total(latestKeyType, vals)))
      && (latestKeyType.AddInt64? ==> int64 == Wrap(Total(latestKeyType, vals)))
      && (latestKeyType.PutIfAbsent? ==> mergedValue == vals[|vals| - 1])
      && (latestKeyType.Append? ==> appendBuffer == Joined(vals))
    }

    constructor ()
    {
      latestKeyType := ForSeek;
      counter, int64 := 0, 0;
      appendBuffer, mergedValue := [], [];
    }

    method Init(value: Bytes, kind: Kind)
      requires kind.IsAtomic() && Operand(kind, value)
      modifies this
      ensures latestKeyType == kind && Holds([value])
    {
      latestKeyType := kind;
      match kind {
        case Add => counter := DecodeBigEndian(value);
        case AddInt64 => int64 := DecodeFixed64(value);
        case PutIfAbsent => mergedValue := value;
        case Append => appendBuffer := value;
      }
      assert [value][1..] == [];
    }

    method MergeStep(value: Bytes, kind: Kind, ghost vals: seq<Bytes>)
      requires Holds(vals)
      requires kind == latestKeyType || kind.Value? ==> Operand(latestKeyType, value)
      modifies this
      ensures latestKeyType == old(latestKeyType)
      ensures Holds(if kind == latestKeyType || kind.Value? then vals + [value] else vals)
    {
      match latestKeyType {
        case Add =>
          if kind.Add? || kind.Value? {
            TotalSnoc(latestKeyType, vals, value);
            counter := Wrap(counter + DecodeBigEndian(value));
          }
        case AddInt64 =>
          if kind.AddInt64? || kind.Value? {
            TotalSnoc(latestKeyType, vals, value);
            int64 := Wrap(int64 + DecodeFixed64(value));
          }
        case PutIfAbsent =>
          if kind.PutIfAbsent? || kind.Value? {
            mergedValue := value;
          }
        case Append =>
          if kind.Append? || kind.Value? {
            JoinedSnoc(vals, value);
            appendBuffer := value + appendBuffer;
          }
      }
    }

    method Finish(ghost vals: seq<Bytes>)
      requires Holds(vals)
      modifies this
      ensures latestKeyType == old(latestKeyType)
      ensures mergedValue == Fold(latestKeyType, vals)
    {
      match latestKeyType {
        case Add =>
          var buf := new Byte[8](i => 0);
          EncodeBigEndian(buf, 0, counter);
          assert buf[..] == Digits(8, counter);
          mergedValue := buf[..];
        case AddInt64 => mergedValue := EncodeFixed64(int64);
        case PutIfAbsent =>
        case Append => mergedValue := appendBuffer;
      }
    }
  }

  // ---------- the merge loop ----------

  /** `c` belongs to the column the strategy stands in. */
  predicate InColumn(st: State, c: Cell) {
    st.lastQual == c.qual && st.lastCol == c.cf && st.lastKey == c.row
  }

  /** The operands the loop folds in from position `i` on, newest first, and where it
      stops: at the column's end, at a mark, past the snapshot, at a put it may not use
      or after the one put it may. */
  function Collect(cells: seq<Cell>, i: nat, st: State, usePut: bool, snapshot: nat, lastTs: int): (seq<Bytes>, nat)
    requires i <= |cells|
    decreases |cells| - i
  {
    if i == |cells| || cells[i].seqno > snapshot || !InColumn(st, cells[i]) then ([], i)
    else if cells[i].kind.Value? then (if usePut then ([cells[i].value], i + 1) else ([], i))
    else if !cells[i].kind.IsAtomic() then ([], i)
    else
      var (vals, next) := Collect(cells, i + 1, st, usePut, snapshot, cells[i].ts);
      (if cells[i].ts != lastTs && cells[i].kind == st.curType then [cells[i].value] + vals else vals, next)
  }

  ghost predicate GoodOperands(cells: seq<Cell>, st: State) {
    forall c :: c in cells && InColumn(st, c) && (c.kind == st.curType || c.kind.Value?) ==>
                Operand(st.curType, c.value)
  }

  lemma {:induction false} CollectOperands(cells: seq<Cell>, i: nat, st: State, usePut: bool, snapshot: nat, lastTs: int)
    requires i <= |cells| && GoodOperands(cells, st)
    ensures Operands(st.curType, Collect(cells, i, st, usePut, snapshot, lastTs).0)
    ensures i <= Collect(cells, i, st, usePut, snapshot, lastTs).1 <= |cells|
    decreases |cells| - i
  {
    if i < |cells| {
      assert cells[i] in cells;
      CollectOperands(cells, i + 1, st, usePut, snapshot, cells[i].ts);
    }
  }

  /** The strategy has just accepted `x`. */
  ghost predicate StandsAt(st: State, x: Cell) {
    InColumn(st, x) && st.curType == x.kind && st.curTs == x.ts
  }

  /** The fold of the operands the loop collects from `at` on. */
  ghost function RunValue(cells: seq<Cell>, at: nat, st: State, usePut: bool, snapshot: nat): Bytes
    requires at < |cells| && StandsAt(st, cells[at]) && st.curType.IsAtomic() && GoodOperands(cells, st)
  {
    CollectOperands(cells, at + 1, st, usePut, snapshot, cells[at].ts);
    assert cells[at] in cells;
    Fold(st.curType, [cells[at].value] + Collect(cells, at + 1, st, usePut, snapshot, cells[at].ts).0)
  }

  /** InternalMergeProcess: fold the run that starts at `at`; `snapshot` is the largest
      sequence number the loop may pass over, and `num` counts the cells consumed. */
  method InternalMergeProcess(cells: seq<Cell>, at: nat, st: State, usePut: bool, snapshot: nat)
    returns (merged: bool, value: Bytes, next: nat, num: nat)
    requires at < |cells| && StandsAt(st, cells[at]) && GoodOperands(cells, st)
    ensures merged <==> st.curType.IsAtomic()
    ensures !merged ==> next == at
    ensures merged ==> at < next <= |cells| && num == next - at
    ensures merged ==> next == Collect(cells, at + 1, st, usePut, snapshot, cells[at].ts).1
    ensures merged ==> value == RunValue(cells, at, st, usePut, snapshot)
  {
    if !st.curType.IsAtomic() {
      return false, [], at, 0;
    }
    assert cells[at] in cells;
    var merger := new AtomicMergeStrategy();
    merger.Init(cells[at].value, st.curType);
    ghost var run := Collect(cells, at + 1, st, usePut, snapshot, cells[at].ts);
    next := MergeOlder(merger, cells, at, st, usePut, snapshot, cells[at].value);
    num := next - at;
    merger.Finish([cells[at].value] + run.0);
    merged := true;
    value := merger.mergedValue;
  }

  /** The loop over the older cells of the run. */
  method MergeOlder(merger: AtomicMergeStrategy, cells: seq<Cell>, at: nat, st: State, usePut: bool, snapshot: nat,
                    ghost newest: Bytes)
    returns (next: nat)
    requires at < |cells| && st.curTs == cells[at].ts && GoodOperands(cells, st)
    requires merger.latestKeyType == st.curType && merger.Holds([newest])
    modifies merger
    ensures merger.latestKeyType == st.curType
    ensures var run := Collect(cells, at + 1, st, usePut, snapshot, cells[at].ts);
            next == run.1 && merger.Holds([newest] + run.0)
    ensures at < next <= |cells|
  {
    ghost var run := Collect(cells, at + 1, st, usePut, snapshot, cells[at].ts);
    ghost var vals, all := [newest], [newest] + run.0;
    next := at + 1;
    var lastTs: int := st.curTs;
    var versionNum := 0;
    while next < |cells|
      invariant at < next <= |cells| && 0 <= versionNum <= 1
      invariant merger.latestKeyType == st.curType && merger.Holds(vals)
      invariant Collecting(cells, next, st, usePut, snapshot, lastTs, all, run.1, vals, versionNum == 1)
    {
      if versionNum >= 1 {
        break;
      }
      var c := cells[next];
      if c.seqno > snapshot || !InColumn(st, c) || (!c.kind.IsAtomic() && !c.kind.Value?) {
        break;
      }
      if c.kind.Value? {
        if !usePut {
          break;
        }
        versionNum := versionNum + 1;
      }
      vals := MergeNext(merger, cells, next, st, usePut, snapshot, lastTs, all, run.1, vals);
      lastTs := c.ts;
      next := next + 1;
    }
    CollectStops(cells, next, st, usePut, snapshot, lastTs, all, run.1, vals, versionNum == 1);
  }

  /** Fold in the next cell of the run. */
  method MergeNext(merger: AtomicMergeStrategy, cells: seq<Cell>, next: nat, st: State, usePut: bool, snapshot: nat,
                   lastTs: int, ghost all: seq<Bytes>, ghost end: nat, ghost vals: seq<Bytes>)
    returns (ghost more: seq<Bytes>)
    requires next < |cells| && GoodOperands(cells, st) && Passes(st, usePut, snapshot, cells[next])
    requires merger.latestKeyType == st.curType && merger.Holds(vals)
    requires Collecting(cells, next, st, usePut, snapshot, lastTs, all, end, vals, false)
    modifies merger
    ensures merger.latestKeyType == st.curType && merger.Holds(more)
    ensures Collecting(cells, next + 1, st, usePut, snapshot, cells[next].ts, all, end, more, cells[next].kind.Value?)
  {
    var c := cells[next];
    assert c in cells;
    CollectTakes(cells, next, st, usePut, snapshot, lastTs, all, end, vals);
    more := vals;
    if c.ts != lastTs || c.kind.Value? {
      merger.MergeStep(c.value, c.kind, vals);
      more := if c.kind == st.curType || c.kind.Value? then vals + [c.value] else vals;
    }
  }

  /** Of the operands `all`, up to position `end`, the loop has `vals` so far; `stopped`
      once it has used a put. */
  ghost predicate Collecting(cells: seq<Cell>, next: nat, st: State, usePut: bool, snapshot: nat, lastTs: int,
                             all: seq<Bytes>, end: nat, vals: seq<Bytes>, stopped: bool) {
    && next <= |cells|
    && (stopped ==> all == vals && end == next)
    && (!stopped ==> var rest := Collect(cells, next, st, usePut, snapshot, lastTs); all == vals + rest.0 && end == rest.1)
  }

  /** The loop goes past this cell. */
  predicate Passes(st: State, usePut: bool, snapshot: nat, c: Cell) {
    c.seqno <= snapshot && InColumn(st, c) && (c.kind.IsAtomic() || (c.kind.Value? && usePut))
  }

  lemma CollectStops(cells: seq<Cell>, next: nat, st: State, usePut: bool, snapshot: nat, lastTs: int,
                     all: seq<Bytes>, end: nat, vals: seq<Bytes>, stopped: bool)
    requires Collecting(cells, next, st, usePut, snapshot, lastTs, all, end, vals, stopped)
    requires next == |cells| || stopped || !Passes(st, usePut, snapshot, cells[next])
    ensures all == vals && end == next
  {
    assert vals + [] == vals;
  }

  lemma CollectTakes(cells: seq<Cell>, next: nat, st: State, usePut: bool, snapshot: nat, lastTs: int,
                     all: seq<Bytes>, end: nat, vals: seq<Bytes>)
    requires Collecting(cells, next, st, usePut, snapshot, lastTs, all, end, vals, false)
    requires next < |cells| && Passes(st, usePut, snapshot, cells[next])
    ensures var c := cells[next];
            var more := if c.kind.Value? || (c.ts != lastTs && c.kind == st.curType) then vals + [c.value] else vals;
            Collecting(cells, next + 1, st, usePut, snapshot, c.ts, all, end, more, c.kind.Value?)
  {
    var c := cells[next];
    if !c.kind.Value? {
      var rest := Collect(cells, next + 1, st, usePut, snapshot, c.ts).0;
      assert vals + ([c.value] + rest) == (vals + [c.value]) + rest;
    }
  }

  /** Of the cells from `i` on, the loop folds in `j`: a put, or an operation of the kind
      merged that is not of the time of the cell before it. */
  predicate Folds(cells: seq<Cell>, st: State, i: nat, lastTs: int, j: nat)
    requires i <= j < |cells|
  {
    cells[j].kind.Value? ||
    (cells[j].kind == st.curType && cells[j].ts != if j == i then lastTs else cells[j - 1].ts)
  }

  /** Where the loop stops: it has passed everything before, used a put at most at the end,
      and cannot pass the next cell. */
  ghost predicate StopsAt(cells: seq<Cell>, i: nat, st: State, usePut: bool, snapshot: nat, end: nat) {
    && i <= end <= |cells|
    && (forall j :: i <= j < end ==> Passes(st, usePut, snapshot, cells[j]))
    && (forall j :: i <= j < end - 1 ==> !cells[j].kind.Value?)
    && (end < |cells| && (end == i || !cells[end - 1].kind.Value?) ==> !Passes(st, usePut, snapshot, cells[end]))
  }

  /** `at` are the positions from `i` to `end` that the loop folds in, `vals` their values. */
  ghost predicate Positions(cells: seq<Cell>, i: nat, st: State, lastTs: int, end: nat, at: seq<nat>, vals: seq<Bytes>) {
    && end <= |cells| && |at| == |vals|
    && (forall a, b :: 0 <= a < b < |at| ==> at[a] < at[b])
    && (forall a :: 0 <= a < |at| ==> i <= at[a] < end && Folds(cells, st, i, lastTs, at[a]) && vals[a] == cells[at[a]].value)
    && (forall j :: i <= j < end && Folds(cells, st, i, lastTs, j) ==> j in at)
  }

  lemma StopsNext(cells: seq<Cell>, i: nat, st: State, usePut: bool, snapshot: nat, end: nat)
    requires i < |cells| && Passes(st, usePut, snapshot, cells[i]) && !cells[i].kind.Value?
    requires StopsAt(cells, i + 1, st, usePut, snapshot, end)
    ensures StopsAt(cells, i, st, usePut, snapshot, end)
  {
  }

  lemma PositionsNext(cells: seq<Cell>, i: nat, st: State, lastTs: int, end: nat, at: seq<nat>, vals: seq<Bytes>)
    requires i < end <= |cells| && Positions(cells, i + 1, st, cells[i].ts, end, at, vals)
    ensures Folds(cells, st, i, lastTs, i) ==>
              Positions(cells, i, st, lastTs, end, [i] + at, [cells[i].value] + vals)
    ensures !Folds(cells, st, i, lastTs, i) ==> Positions(cells, i, st, lastTs, end, at, vals)
  {
    FoldsFurther(cells, i, st, lastTs, end);
    if Folds(cells, st, i, lastTs, i) { PositionsAdd(cells, i, st, lastTs, end, at, vals); }
  }

  lemma FoldsFurther(cells: seq<Cell>, i: nat, st: State, lastTs: int, end: nat)
    requires i < end <= |cells|
    ensures forall j :: i < j < end ==> (Folds(cells, st, i, lastTs, j) <==> Folds(cells, st, i + 1, cells[i].ts, j))
  {
  }

  lemma PositionsAdd(cells: seq<Cell>, i: nat, st: State, lastTs: int, end: nat, at: seq<nat>, vals: seq<Bytes>)
    requires i < end <= |cells| && Positions(cells, i + 1, st, cells[i].ts, end, at, vals)
    requires Folds(cells, st, i, lastTs, i)
    ensures Positions(cells, i, st, lastTs, end, [i] + at, [cells[i].value] + vals)
  {
    FoldsFurther(cells, i, st, lastTs, end);
    forall j | i <= j < end && Folds(cells, st, i, lastTs, j) ensures j in [i] + at {
      assert j == i || j in at;
    }
  }

  /** Whatever kinds and times the column mixes, the operands are the values at exactly the
      positions the loop folds in, in their order, up to where it stops. */
  lemma {:induction false} CollectIs(cells: seq<Cell>, i: nat, st: State, usePut: bool, snapshot: nat, lastTs: int)
    returns (at: seq<nat>)
    requires i <= |cells| && st.curType.IsAtomic()
    ensures var (vals, end) := Collect(cells, i, st, usePut, snapshot, lastTs);
            StopsAt(cells, i, st, usePut, snapshot, end) && Positions(cells, i, st, lastTs, end, at, vals)
    decreases |cells| - i
  {
    at := [];
    if i < |cells| && Passes(st, usePut, snapshot, cells[i]) {
      if cells[i].kind.Value? {
        at := [i];
      } else {
        at := CollectIs(cells, i + 1, st, usePut, snapshot, cells[i].ts);
        var rest := Collect(cells, i + 1, st, usePut, snapshot, cells[i].ts);
        StopsNext(cells, i, st, usePut, snapshot, rest.1);
        PositionsNext(cells, i, st, lastTs, rest.1, at, rest.0);
        if Folds(cells, st, i, lastTs, i) { at := [i] + at; }
      }
    }
  }

  // ---------- merging before reading does not change what is read ----------

  ghost function Values(xs: seq<Cell>): (r: seq<Bytes>)
    ensures |r| == |xs| && forall i :: 0 <= i < |xs| ==> r[i] == xs[i].value
  {
    seq(|xs|, i requires 0 <= i < |xs| => xs[i].value)
  }

  /** Atomic operations of one kind on one column, newest first, at distinct times. */
  ghost predicate AtomicRun(k: Kind, xs: seq<Cell>) {
    && k.IsAtomic() && xs != []
    && (forall i :: 0 <= i < |xs| ==> xs[i].kind == k && SameCell(xs[i], xs[0]) && Operand(k, xs[i].value))
    && (forall i, j :: 0 <= i < j < |xs| ==> xs[i].ts > xs[j].ts)
  }

  /** What follows the run: nothing of the column, a delete mark, or a put. */
  ghost predicate EndsRun(st: State, rest: seq<Cell>) {
    rest == [] || !InColumn(st, rest[0]) || !rest[0].kind.IsAtomic()
  }

  /** The put a reader folds in, if the run stands on one. */
  ghost function PutBelow(st: State, rest: seq<Cell>): seq<Bytes> {
    if rest != [] && InColumn(st, rest[0]) && rest[0].kind.Value? then [rest[0].value] else []
  }

  /** ScanMergedValue: the value a read returns for the run at the head of `cells`. */
  ghost function ReadValue(cells: seq<Cell>, st: State, snapshot: nat): Bytes
    requires cells != [] && StandsAt(st, cells[0]) && st.curType.IsAtomic() && GoodOperands(cells, st)
  {
    RunValue(cells, 0, st, true, snapshot)
  }

  lemma CollectEnd(xs: seq<Cell>, rest: seq<Cell>, st: State, snapshot: nat, lastTs: int)
    requires EndsRun(st, rest) && (forall c :: c in rest ==> c.seqno <= snapshot)
    ensures Collect(xs + rest, |xs|, st, true, snapshot, lastTs) == (PutBelow(st, rest), |xs| + |PutBelow(st, rest)|)
  {
    if rest != [] {
      assert (xs + rest)[|xs|] == rest[0];
      assert rest[0] in rest;
    }
  }

  lemma ValuesHead(xs: seq<Cell>, i: nat, put: seq<Bytes>)
    requires i < |xs|
    ensures [xs[i].value] + (Values(xs[i + 1..]) + put) == Values(xs[i..]) + put
  {
  }

  lemma {:induction false} CollectRun(k: Kind, xs: seq<Cell>, rest: seq<Cell>, st: State, snapshot: nat, i: nat)
    requires AtomicRun(k, xs) && StandsAt(st, xs[0]) && EndsRun(st, rest) && 1 <= i <= |xs|
    requires (forall c :: c in xs ==> c.seqno <= snapshot) && (forall c :: c in rest ==> c.seqno <= snapshot)
    ensures Collect(xs + rest, i, st, true, snapshot, xs[i - 1].ts) ==
            (Values(xs[i..]) + PutBelow(st, rest), |xs| + |PutBelow(st, rest)|)
    decreases |xs| - i
  {
    var put := PutBelow(st, rest);
    if i == |xs| {
      CollectEnd(xs, rest, st, snapshot, xs[i - 1].ts);
      assert Values(xs[i..]) + put == put;
    } else {
      assert xs[i] in xs;
      CollectRun(k, xs, rest, st, snapshot, i + 1);
      CollectOne(xs + rest, i, st, true, snapshot, xs[i - 1].ts);
      ValuesHead(xs, i, put);
    }
  }

  /** One more operation of the run. */
  lemma CollectOne(cells: seq<Cell>, i: nat, st: State, usePut: bool, snapshot: nat, lastTs: int)
    requires i < |cells| && cells[i].seqno <= snapshot && InColumn(st, cells[i]) && cells[i].kind.IsAtomic()
    requires cells[i].kind == st.curType && cells[i].ts != lastTs
    ensures var (vals, next) := Collect(cells, i + 1, st, usePut, snapshot, cells[i].ts);
            Collect(cells, i, st, usePut, snapshot, lastTs) == ([cells[i].value] + vals, next)
  {
  }

  /** MergeAtomicOPs over a segment of the run folds exactly the segment. */
  lemma {:induction false} CollectSegment(k: Kind, seg: seq<Cell>, rest: seq<Cell>, st: State, snapshot: nat, i: nat)
    requires AtomicRun(k, seg) && StandsAt(st, seg[0]) && 1 <= i <= |seg|
    requires EndsRun(st, rest) || rest[0].seqno > snapshot
    requires forall c :: c in seg ==> c.seqno <= snapshot
    ensures Collect(seg + rest, i, st, false, snapshot, seg[i - 1].ts) == (Values(seg[i..]), |seg|)
    decreases |seg| - i
  {
    var cells := seg + rest;
    if i == |seg| {
      assert Values(seg[i..]) == [];
      if rest != [] { assert cells[i] == rest[0]; }
    } else {
      assert seg[i] in seg && cells[i] == seg[i];
      CollectSegment(k, seg, rest, st, snapshot, i + 1);
      CollectOne(cells, i, st, false, snapshot, seg[i - 1].ts);
      ValuesHead(seg, i, []);
      assert Values(seg[i..]) + [] == Values(seg[i..]) && Values(seg[i + 1..]) + [] == Values(seg[i + 1..]);
    }
  }

  lemma RunOperands(k: Kind, xs: seq<Cell>, rest: seq<Cell>, st: State)
    requires AtomicRun(k, xs) && StandsAt(st, xs[0])
    requires forall c :: c in rest && InColumn(st, c) && (c.kind == k || c.kind.Value?) ==> Operand(k, c.value)
    ensures GoodOperands(xs + rest, st)
    ensures Operands(k, Values(xs)) && Operands(k, PutBelow(st, rest))
  {
  }

  lemma ReadRun(k: Kind, xs: seq<Cell>, rest: seq<Cell>, st: State, snapshot: nat)
    requires AtomicRun(k, xs) && StandsAt(st, xs[0]) && EndsRun(st, rest)
    requires (forall c :: c in xs ==> c.seqno <= snapshot) && (forall c :: c in rest ==> c.seqno <= snapshot)
    requires GoodOperands(xs + rest, st) && Operands(k, Values(xs) + PutBelow(st, rest))
    ensures ReadValue(xs + rest, st, snapshot) == Fold(k, Values(xs) + PutBelow(st, rest))
  {
    CollectRun(k, xs, rest, st, snapshot, 1);
    assert (xs + rest)[0] == xs[0];
    assert Values(xs) == [xs[0].value] + Values(xs[1..]);
    assert [xs[0].value] + (Values(xs[1..]) + PutBelow(st, rest)) == Values(xs) + PutBelow(st, rest);
  }

  /** Where the `a`th cell of the merged run comes from. */
  ghost function Origin(i: nat, j: nat, a: nat): nat
    requires i < j
  {
    if a <= i then a else a - i - 1 + j
  }

  lemma MergedAt(xs: seq<Cell>, i: nat, j: nat, v: Bytes, ys: seq<Cell>, a: nat)
    requires i < j <= |xs| && ys == xs[..i] + [xs[i].(value := v)] + xs[j..] && a < |ys|
    ensures Origin(i, j, a) < |xs| && ys[a] == xs[Origin(i, j, a)].(value := if a == i then v else ys[a].value)
    ensures a != i ==> ys[a] == xs[Origin(i, j, a)]
  {
  }

  lemma MergedRun(k: Kind, xs: seq<Cell>, i: nat, j: nat, v: Bytes, snapshot: nat, ys: seq<Cell>)
    requires AtomicRun(k, xs) && i < j <= |xs| && Operand(k, v)
    requires forall c :: c in xs ==> c.seqno <= snapshot
    requires ys == xs[..i] + [xs[i].(value := v)] + xs[j..]
    ensures AtomicRun(k, ys) && forall c :: c in ys ==> c.seqno <= snapshot
  {
    MergedAt(xs, i, j, v, ys, 0);
    forall a | 0 <= a < |ys|
      ensures ys[a].kind == k && SameCell(ys[a], ys[0]) && Operand(k, ys[a].value) && ys[a].seqno <= snapshot
    {
      MergedAt(xs, i, j, v, ys, a);
      assert xs[Origin(i, j, a)] in xs;
    }
    forall a, b | 0 <= a < b < |ys| ensures ys[a].ts > ys[b].ts {
      MergedAt(xs, i, j, v, ys, a);
      MergedAt(xs, i, j, v, ys, b);
    }
  }

  lemma MergedValues(xs: seq<Cell>, i: nat, j: nat, v: Bytes, put: seq<Bytes>)
    requires i < j <= |xs|
    ensures var a, s, b := Values(xs[..i]), Values(xs[i..j]), Values(xs[j..]) + put;
            && Values(xs) + put == a + s + b
            && Values(xs[..i] + [xs[i].(value := v)] + xs[j..]) + put == a + [v] + b
  {
  }

  /** MergeAtomicOPs on the segment `seg`, followed by `tail` in the compaction's input. */
  ghost predicate MergesSegment(k: Kind, seg: seq<Cell>, tail: seq<Cell>, at: State, limit: nat) {
    && AtomicRun(k, seg) && StandsAt(at, seg[0]) && (forall c :: c in seg ==> c.seqno <= limit)
    && (EndsRun(at, tail) || tail[0].seqno > limit)
    && (forall c :: c in tail && InColumn(at, c) && (c.kind == k || c.kind.Value?) ==> Operand(k, c.value))
  }

  lemma SegmentValue(k: Kind, seg: seq<Cell>, tail: seq<Cell>, at: State, limit: nat)
    requires MergesSegment(k, seg, tail, at, limit)
    ensures GoodOperands(seg + tail, at) && Operands(k, Values(seg))
    ensures RunValue(seg + tail, 0, at, false, limit) == Fold(k, Values(seg))
  {
    RunOperands(k, seg, tail, at);
    CollectSegment(k, seg, tail, at, limit, 1);
    assert (seg + tail)[0] == seg[0];
    assert Values(seg) == [seg[0].value] + Values(seg[1..]);
  }

  /** Replace any contiguous segment of a run by the value that a compaction merges it into,
      under the key of the segment's newest cell: the value read is the same. */
  lemma AtomicMergeStable(k: Kind, xs: seq<Cell>, rest: seq<Cell>, st: State, snapshot: nat, i: nat, j: nat,
                          tail: seq<Cell>, at: State, limit: nat)
    requires AtomicRun(k, xs) && StandsAt(st, xs[0]) && EndsRun(st, rest) && i < j <= |xs|
    requires (forall c :: c in xs ==> c.seqno <= snapshot) && (forall c :: c in rest ==> c.seqno <= snapshot)
    requires forall c :: c in rest && InColumn(st, c) && (c.kind == k || c.kind.Value?) ==> Operand(k, c.value)
    requires MergesSegment(k, xs[i..j], tail, at, limit)
    ensures GoodOperands(xs + rest, st) && GoodOperands(xs[i..j] + tail, at)
    ensures var merged := xs[i].(value := RunValue(xs[i..j] + tail, 0, at, false, limit));
            var ys := xs[..i] + [merged] + xs[j..];
            && AtomicRun(k, ys) && StandsAt(st, ys[0]) && GoodOperands(ys + rest, st)
            && ReadValue(ys + rest, st, snapshot) == ReadValue(xs + rest, st, snapshot)
  {
    RunOperands(k, xs, rest, st);
    SegmentValue(k, xs[i..j], tail, at, limit);
    var a, s, b := Values(xs[..i]), Values(xs[i..j]), Values(xs[j..]) + PutBelow(st, rest);
    FoldInside(k, a, s, b);
    var f := Fold(k, s);
    var ys := xs[..i] + [xs[i].(value := f)] + xs[j..];
    MergedRun(k, xs, i, j, f, snapshot, ys);
    MergedValues(xs, i, j, f, PutBelow(st, rest));
    RunOperands(k, ys, rest, st);
    ReadRun(k, xs, rest, st, snapshot);
    ReadRun(k, ys, rest, st, snapshot);
  }
}

/** DefaultCompactStrategy: the two per-cell automata, `Drop` for compaction and
    `ScanDrop` for reads. */
module Strategy {
  import opened Bytes
  import opened Cells
  import opened Frontier

  /** leveldb::kMaxSequenceNumber. */
  const MAX_SEQUENCE: nat := 0xFF_FFFF_FFFF_FFFF

  /** The row decoded from the compaction's lower bound, if it has one. */
  datatype Bound = NoBound | Below(row: Bytes)

  /** The members the strategy carries from cell to cell. */
  datatype State = State(
    lastKey: Bytes,
    lastCol: Bytes,
    lastQual: Bytes,
    lastTs: int,
    lastType: Kind,
    curType: Kind,
    delRowTs: int,
    delColTs: int,
    delQualTs: int,
    curTs: int,
    delRowSeq: nat,
    delColSeq: nat,
    delQualSeq: nat,
    versionNum: nat,
    hasPut: bool)

  const Fresh := State([], [], [], -1, ForSeek, ForSeek, -1, -1, -1, -1, 0, 0, 0, 0, false)

  // ---------- reading ----------

  function StampIf(hit: bool, x: Cell): int {
    if hit then x.ts else -1
  }

  /** The last checks of a read, for a cell no deletion has reached; `same` says that
      the previous cell belonged to the same column. */
  function ScanAdmit(env: Env, s: State, x: Cell, same: bool): (State, bool)
    requires Live(env, x)
  {
    if x.kind.Value? then
      var s' := s.(hasPut := true,
                   versionNum := if s.curTs == s.lastTs && same then s.versionNum else s.versionNum + 1);
      (s', s'.versionNum > env.schema[x.cf].maxVersions)
    else (s, !x.kind.IsAtomic() || s.hasPut)
  }

  /** Where a live cell leaves the read automaton: skipped at once, or on to the last
      checks as the first or a further cell of its column. */
  datatype Verdict = Skip | First | Further

  function ScanScope(s: State, x: Cell): (State, Verdict) {
    if x.row != s.lastKey then
      (s.(lastKey := x.row, lastCol := x.cf, lastQual := x.qual, lastType := x.kind,
          versionNum := 0, hasPut := false,
          delRowTs := StampIf(x.kind.Del?, x),
          delColTs := StampIf(x.kind.Del? || x.kind.DelColumn?, x),
          delQualTs := StampIf(x.kind.Del? || x.kind.DelColumn? || x.kind.DelQualifiers?, x)), First)
    else if s.delRowTs >= x.ts then (s, Skip)
    else if x.cf != s.lastCol then
      (s.(lastCol := x.cf, lastQual := x.qual, lastType := x.kind,
          versionNum := 0, hasPut := false,
          delColTs := StampIf(x.kind.DelColumn?, x),
          delQualTs := StampIf(x.kind.DelColumn? || x.kind.DelQualifiers?, x)), First)
    else if s.delColTs >= x.ts then (s, Skip)
    else if x.qual != s.lastQual then
      (s.(lastQual := x.qual, lastType := x.kind, versionNum := 0, hasPut := false,
          delQualTs := StampIf(x.kind.DelQualifiers?, x)), First)
    else if s.delQualTs >= x.ts then (s, Skip)
    else if x.kind.DelQualifiers? then (s.(delQualTs := x.ts), First)
    else if s.lastType.DelQualifier? then
      (s.(lastType := x.kind, versionNum := if x.kind.Value? then s.versionNum + 1 else s.versionNum), Skip)
    else (s.(lastType := x.kind), Further)
  }

  /** One call of ScanDrop: the next state, and whether the reader skips the cell. */
  function ScanStep(env: Env, st: State, x: Cell): (State, bool) {
    var s := st.(curType := x.kind, lastTs := st.curTs, curTs := x.ts);
    if !Live(env, x) then (s, true)
    else
      var (s', verdict) := ScanScope(s, x);
      if verdict.Skip? then (s', true) else ScanAdmit(env, s', x, verdict.Further?)
  }

  /** What a reader is left with when it runs over the cells `h`. */
  function ScanRun(env: Env, st: State, h: seq<Cell>): seq<Cell>
    decreases |h|
  {
    if h == [] then []
    else
      var (s, dropped) := ScanStep(env, st, h[0]);
      (if dropped then [] else [h[0]]) + ScanRun(env, s, h[1..])
  }

  // ---------- compacting ----------

  /** CheckCompactLowerBound, together with the snapshot test made beside each call. */
  predicate MarkDroppable(snapshot: nat, bound: Bound, row: Bytes) {
    bound.Below? && LexLt(row, bound.row) && snapshot == MAX_SEQUENCE
  }

  /** The version and atomic checks at the end of Drop. */
  function DropAdmit(env: Env, snapshot: nat, s: State, x: Cell): (State, bool)
    requires Live(env, x)
  {
    if x.kind.Value? then
      var s' := s.(hasPut := true, versionNum := if x.seqno <= snapshot then s.versionNum + 1 else s.versionNum);
      (s', x.seqno <= snapshot && s'.versionNum > env.schema[x.cf].maxVersions)
    else if x.kind.DelQualifier? then
      (s, x.seqno <= snapshot && s.versionNum >= env.schema[x.cf].maxVersions)
    else (s, x.kind.IsAtomic() && s.hasPut)
  }

  /** Where a live cell stands among the deletions in force, and whether that alone
      discards it.  A mark that opens its row, family or qualifier goes when nothing
      below the lower bound can still need it. */
  function DropScope(snapshot: nat, bound: Bound, s: State, x: Cell): (State, bool) {
    if x.row != s.lastKey then
      var row := x.kind.Del?;
      var col := row || x.kind.DelColumn?;
      var qual := col || x.kind.DelQualifiers?;
      (s.(lastKey := x.row, lastCol := x.cf, lastQual := x.qual, versionNum := 0, hasPut := false,
          delRowTs := StampIf(row, x), delRowSeq := if row then x.seqno else s.delRowSeq,
          delColTs := StampIf(col, x), delColSeq := if col then x.seqno else s.delColSeq,
          delQualTs := StampIf(qual, x), delQualSeq := if qual then x.seqno else s.delQualSeq),
       qual && MarkDroppable(snapshot, bound, x.row))
    else if s.delRowTs >= x.ts && s.delRowSeq <= snapshot then (s, true)
    else if x.cf != s.lastCol then
      var col := x.kind.DelColumn?;
      var qual := col || x.kind.DelQualifiers?;
      (s.(lastCol := x.cf, lastQual := x.qual, versionNum := 0, hasPut := false,
          delColTs := StampIf(col, x), delColSeq := if col then x.seqno else s.delColSeq,
          delQualTs := StampIf(qual, x), delQualSeq := if qual then x.seqno else s.delQualSeq),
       qual && MarkDroppable(snapshot, bound, x.row))
    else if s.delColTs >= x.ts && s.delColSeq <= snapshot then (s, true)
    else if x.qual != s.lastQual then
      var qual := x.kind.DelQualifiers?;
      (s.(lastQual := x.qual, versionNum := 0, hasPut := false,
          delQualTs := StampIf(qual, x), delQualSeq := if qual then x.seqno else s.delQualSeq),
       qual && MarkDroppable(snapshot, bound, x.row))
    else (s, s.delQualTs >= x.ts && s.delQualSeq <= snapshot)
  }

  /** One call of Drop: the next state, and whether the compaction discards the cell. */
  function DropStep(env: Env, snapshot: nat, bound: Bound, st: State, x: Cell): (State, bool) {
    var s := st.(curType := x.kind, curTs := x.ts);
    if !Live(env, x) then (s, true)
    else
      var (s', dropped) := DropScope(snapshot, bound, s, x);
      if dropped then (s', true) else DropAdmit(env, snapshot, s', x)
  }

  /** What a compaction writes back when it runs over the cells `h`. */
  function DropRun(env: Env, snapshot: nat, bound: Bound, st: State, h: seq<Cell>): seq<Cell>
    decreases |h|
  {
    if h == [] then []
    else
      var (s, dropped) := DropStep(env, snapshot, bound, st, h[0]);
      (if dropped then [] else [h[0]]) + DropRun(env, snapshot, bound, s, h[1..])
  }

  // ---------- the strategy object ----------

  /** The strategy object; its members are updated one by one, in the source's order. */
  class DefaultCompactStrategy {
    const schema: Schema
    var st: State
    var snapshot: nat

    constructor (schema: Schema)
      ensures this.schema == schema && st == Fresh && snapshot == MAX_SEQUENCE
    {
      this.schema := schema;
      st := Fresh;
      snapshot := MAX_SEQUENCE;
    }

    method SetSnapshot(value: nat)
      modifies this`snapshot
      ensures snapshot == value
    {
      snapshot := value;
    }

    method Drop(x: Cell, now: int, bound: Bound) returns (dropped: bool)
      modifies this`st
      ensures (st, dropped) == DropStep(Env(schema, now), snapshot, bound, old(st), x)
    {
      st := st.(curType := x.kind);
      st := st.(curTs := x.ts);
      if !x.kind.Del? && x.cf !in schema {
        return true;
      }
      if x.kind.Code() >= Kind.Value.Code() && Expired(Env(schema, now), x) {
        return true;
      }
      dropped := DropByScope(x, bound);
      if dropped {
        return true;
      }
      if x.kind.Value? {
        st := st.(hasPut := true);
        if x.seqno <= snapshot {
          st := st.(versionNum := st.versionNum + 1);
          if st.versionNum > schema[x.cf].maxVersions {
            return true;
          }
        }
      }
      if x.kind.DelQualifier? {
        if x.seqno <= snapshot {
          if st.versionNum >= schema[x.cf].maxVersions {
            return true;
          }
        }
      }
      if x.kind.IsAtomic() && st.hasPut {
        return true;
      }
      return false;
    }

    /** The branches of Drop on the row, the family and the qualifier. */
    method DropByScope(x: Cell, bound: Bound) returns (dropped: bool)
      modifies this`st
      ensures (st, dropped) == DropScope(snapshot, bound, old(st), x)
    {
      if x.row != st.lastKey {
        st := st.(lastKey := x.row, lastCol := x.cf, lastQual := x.qual);
        st := st.(delRowTs := -1, delColTs := -1, delQualTs := -1);
        st := st.(versionNum := 0, hasPut := false);
        if x.kind.Del? {
          st := st.(delRowTs := x.ts, delRowSeq := x.seqno);
        }
        if x.kind.Del? || x.kind.DelColumn? {
          st := st.(delColTs := x.ts, delColSeq := x.seqno);
        }
        if x.kind.Del? || x.kind.DelColumn? || x.kind.DelQualifiers? {
          st := st.(delQualTs := x.ts, delQualSeq := x.seqno);
          if MarkDroppable(snapshot, bound, x.row) {
            return true;
          }
        }
      } else if st.delRowTs >= x.ts && st.delRowSeq <= snapshot {
        return true;
      } else if x.cf != st.lastCol {
        st := st.(lastCol := x.cf, lastQual := x.qual);
        st := st.(delColTs := -1, delQualTs := -1);
        st := st.(versionNum := 0, hasPut := false);
        if x.kind.DelColumn? {
          st := st.(delColTs := x.ts, delColSeq := x.seqno);
        }
        if x.kind.DelColumn? || x.kind.DelQualifiers? {
          st := st.(delQualTs := x.ts, delQualSeq := x.seqno);
          if MarkDroppable(snapshot, bound, x.row) {
            return true;
          }
        }
      } else if st.delColTs >= x.ts && st.delColSeq <= snapshot {
        return true;
      } else if x.qual != st.lastQual {
        st := st.(lastQual := x.qual);
        st := st.(delQualTs := -1);
        st := st.(versionNum := 0, hasPut := false);
        if x.kind.DelQualifiers? {
          st := st.(delQualTs := x.ts, delQualSeq := x.seqno);
          if MarkDroppable(snapshot, bound, x.row) {
            return true;
          }
        }
      } else if st.delQualTs >= x.ts && st.delQualSeq <= snapshot {
        return true;
      }
      return false;
    }

    method ScanDrop(x: Cell, now: int) returns (dropped: bool)
      modifies this`st
      ensures (st, dropped) == ScanStep(Env(schema, now), old(st), x)
    {
      st := st.(curType := x.kind);
      st := st.(lastTs := st.curTs);
      st := st.(curTs := x.ts);
      if !x.kind.Del? && x.cf !in schema {
        return true;
      }
      if x.kind.Code() >= Kind.Value.Code() && Expired(Env(schema, now), x) {
        return true;
      }
      var verdict := ScanByScope(x);
      if verdict.Skip? {
        return true;
      }
      if !x.kind.Value? && !x.kind.IsAtomic() {
        return true;
      }
      if x.kind.Value? {
        st := st.(hasPut := true);
      }
      if x.kind.IsAtomic() && st.hasPut {
        return true;
      }
      if x.kind.Value? {
        if st.curTs == st.lastTs && verdict.Further? {
        } else {
          st := st.(versionNum := st.versionNum + 1);
        }
        if st.versionNum > schema[x.cf].maxVersions {
          return true;
        }
      }
      return false;
    }

    /** The branches of ScanDrop on the row, the family and the qualifier. */
    method ScanByScope(x: Cell) returns (verdict: Verdict)
      modifies this`st
      ensures (st, verdict) == ScanScope(old(st), x)
    {
      verdict := First;
      if x.row != st.lastKey {
        st := st.(lastKey := x.row, lastCol := x.cf, lastQual := x.qual, lastType := x.kind);
        st := st.(versionNum := 0, hasPut := false);
        st := st.(delRowTs := -1, delColTs := -1, delQualTs := -1);
        if x.kind.Del? {
          st := st.(delRowTs := x.ts);
        }
        if x.kind.Del? || x.kind.DelColumn? {
          st := st.(delColTs := x.ts);
        }
        if x.kind.Del? || x.kind.DelColumn? || x.kind.DelQualifiers? {
          st := st.(delQualTs := x.ts);
        }
      } else if st.delRowTs >= x.ts {
        verdict := Skip;
      } else if x.cf != st.lastCol {
        st := st.(lastCol := x.cf, lastQual := x.qual, lastType := x.kind);
        st := st.(versionNum := 0, hasPut := false);
        st := st.(delColTs := -1, delQualTs := -1);
        if x.kind.DelColumn? {
          st := st.(delColTs := x.ts);
        }
        if x.kind.DelColumn? || x.kind.DelQualifiers? {
          st := st.(delQualTs := x.ts);
        }
      } else if st.delColTs >= x.ts {
        verdict := Skip;
      } else if x.qual != st.lastQual {
        st := st.(lastQual := x.qual, lastType := x.kind);
        st := st.(versionNum := 0, hasPut := false);
        st := st.(delQualTs := -1);
        if x.kind.DelQualifiers? {
          st := st.(delQualTs := x.ts);
        }
      } else if st.delQualTs >= x.ts {
        verdict := Skip;
      } else if x.kind.DelQualifiers? {
        st := st.(delQualTs := x.ts);
      } else if st.lastType.DelQualifier? {
        st := st.(lastType := x.kind);
        if x.kind.Value? {
          st := st.(versionNum := st.versionNum + 1);
        }
        verdict := Skip;
      } else {
        verdict := Further;
        st := st.(lastType := x.kind);
      }
    }
  }
}

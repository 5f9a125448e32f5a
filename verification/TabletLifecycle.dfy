/** TabletIO's status and db reference count: loading, the operations in between and
    unloading, each cut at the points where it takes and releases the lock. */
module TabletLifecycle {

  datatype Status = NotInit | OnLoad | Ready | Unloading | Unloading2

  /** `db` and `writer` tell whether db_ and async_writer_ exist. */
  datatype Tablet = Tablet(status: Status, refs: int, tries: nat, compacting: bool, db: bool, writer: bool)

  const Initial := Tablet(NotInit, 0, 0, false, false, false)

  /** Which check an operation makes before it takes a reference: most need a ready
      tablet, Split also one that is not being compacted, Compact marks it as such, and
      reads, writes and scans go on while the tablet starts unloading. */
  datatype Kind = Plain | Split | Compact | Client

  predicate Admits(p: Tablet, kind: Kind, unloadLimit: nat) {
    match kind
    case Plain => p.status == Ready
    case Split => p.status == Ready && !p.compacting
    case Compact => p.status == Ready && !p.compacting
    case Client => (p.status == Ready || p.status == Unloading) && p.tries < unloadLimit
  }

  function EnterStep(p: Tablet, kind: Kind, unloadLimit: nat): (Tablet, bool) {
    if !Admits(p, kind, unloadLimit) then (p, false)
    else (p.(refs := p.refs + 1, compacting := p.compacting || kind == Compact), true)
  }

  function LeaveStep(p: Tablet, kind: Kind): Tablet {
    p.(refs := p.refs - 1, compacting := p.compacting && kind != Compact)
  }

  datatype Loading = Loaded | Refused | Begun

  function LoadStep(p: Tablet): (Tablet, Loading) {
    if p.status == Ready then (p, Loaded)
    else if p.status != NotInit then (p, Refused)
    else (p.(status := OnLoad, refs := p.refs + 1), Begun)
  }

  /** The database is open, or could not be opened. */
  function LoadEndStep(p: Tablet, ok: bool): Tablet {
    if ok then p.(status := Ready, tries := 0, refs := p.refs - 1)
    else p.(status := NotInit, refs := p.refs - 1)
  }

  function UnloadStep(p: Tablet): (Tablet, bool) {
    var q := p.(tries := p.tries + 1);
    if q.status != Ready then (q, false)
    else (q.(status := Unloading, refs := q.refs + 1), true)
  }

  // ---------- the tablet ----------

  class TabletIO {
    var status: Status
    var dbRefCount: int
    var tryUnloadCount: nat
    var onCompact: bool
    var db: bool
    var asyncWriter: bool

    ghost function View(): Tablet
      reads this
    {
      Tablet(status, dbRefCount, tryUnloadCount, onCompact, db, asyncWriter)
    }

    constructor ()
      ensures View() == Initial
    {
      status, dbRefCount, tryUnloadCount, onCompact, db, asyncWriter := NotInit, 0, 0, false, false, false;
    }

    method Enter(kind: Kind, unloadLimit: nat) returns (ok: bool)
      modifies this
      ensures (View(), ok) == EnterStep(old(View()), kind, unloadLimit)
    {
      if kind == Client {
        if (status != Ready && status != Unloading) || tryUnloadCount >= unloadLimit {
          return false;
        }
      } else {
        if status != Ready {
          return false;
        }
        if kind != Plain && onCompact {
          return false;
        }
        if kind == Compact {
          onCompact := true;
        }
      }
      dbRefCount := dbRefCount + 1;
      return true;
    }

    method Leave(kind: Kind)
      modifies this
      ensures View() == LeaveStep(old(View()), kind)
    {
      if kind == Compact {
        onCompact := false;
      }
      dbRefCount := dbRefCount - 1;
    }

    method BeginLoad() returns (r: Loading)
      modifies this
      ensures (View(), r) == LoadStep(old(View()))
    {
      if status == Ready {
        return Loaded;
      } else if status != NotInit {
        return Refused;
      }
      status := OnLoad;
      dbRefCount := dbRefCount + 1;
      return Begun;
    }

    method EndLoad(ok: bool)
      modifies this
      ensures View() == LoadEndStep(old(View()), ok)
    {
      if ok {
        status := Ready;
        tryUnloadCount := 0;
      } else {
        status := NotInit;
      }
      dbRefCount := dbRefCount - 1;
    }

    method BeginUnload() returns (ok: bool)
      modifies this
      ensures (View(), ok) == UnloadStep(old(View()))
    {
      tryUnloadCount := tryUnloadCount + 1;
      if status != Ready {
        return false;
      }
      status := Unloading;
      dbRefCount := dbRefCount + 1;
      return true;
    }
  }
}

/** ScanContextManager: scan requests of a session share one context, kept in an LRU cache
    that may evict it while it is in use.  The first request to find the queue empty owns
    the context and serves the others' jobs. */
module ScanSessions {
  import opened Collections

  /** A ScanContext with the reference count of its cache entry; `freed` once the deleter
      has run.  Jobs are the closures of waiting requests. */
  datatype Context = Context(
    session: int,
    jobs: seq<nat>,
    handle: bool,
    refs: int,
    freed: bool,
    started: bool,
    dataIdx: nat,
    complete: bool,
    ok: bool)

  /** The contexts ever made, and the cache from session ids to contexts. */
  datatype Table = Table(contexts: seq<Context>, cache: map<int, nat>)

  predicate Valid(tb: Table, c: nat) {
    c < |tb.contexts|
  }

  predicate CacheValid(tb: Table) {
    forall s :: s in tb.cache ==> Valid(tb, tb.cache[s])
  }

  function Update(tb: Table, c: nat, x: Context): Table
    requires Valid(tb, c)
  {
    tb.(contexts := tb.contexts[c := x])
  }

  // ---------- the cache ----------

  /** LRUCache::Unref; the deleter runs when the last reference goes. */
  function Unref(tb: Table, c: nat): Table
    requires Valid(tb, c)
  {
    var x := tb.contexts[c];
    Update(tb, c, x.(refs := x.refs - 1, freed := x.refs - 1 <= 0))
  }

  /** LRUCache::Erase, and the eviction of an entry. */
  function Erase(tb: Table, session: int): Table
    requires CacheValid(tb)
  {
    if session !in tb.cache then tb
    else Unref(tb.(cache := tb.cache - {session}), tb.cache[session])
  }

  // ---------- the critical sections ----------

  /** A request: the context it now owns, if any, and the closures run. */
  function GetStep(tb: Table, session: int, partOfSession: bool, job: nat): (Table, Option<nat>, seq<nat>)
    requires CacheValid(tb)
  {
    if session in tb.cache then
      var c := tb.cache[session];
      var x := tb.contexts[c];
      var y := x.(refs := x.refs + 1, jobs := x.jobs + [job]);
      if |y.jobs| > 1 then (Unref(Update(tb, c, y), c), None, [])
      else (Update(tb, c, y.(handle := true)), Some(c), [])
    else if partOfSession then (tb, None, [job])
    else
      var x := Context(session, [job], true, 2, false, false, 0, false, true);
      (Table(tb.contexts + [x], tb.cache[session := |tb.contexts|]), Some(|tb.contexts|), [])
  }

  /** The owner of a new context opens the iterator. */
  function StartStep(tb: Table, c: nat, ok: bool): Table
    requires Valid(tb, c)
  {
    var x := tb.contexts[c];
    if x.started then tb else Update(tb, c, x.(started := true, ok := ok))
  }

  /** The owner has scanned and replies. */
  function ServeStep(tb: Table, c: nat, complete: bool, ok: bool): Table
    requires Valid(tb, c)
  {
    var x := tb.contexts[c];
    Update(tb, c, x.(complete := complete, ok := ok, dataIdx := x.dataIdx + 1))
  }

  /** DeleteScanContext: reply to everyone waiting and give the context back. */
  function DeleteStep(tb: Table, c: nat): (Table, seq<nat>)
    requires Valid(tb, c) && CacheValid(tb)
  {
    var x := tb.contexts[c];
    (Erase(Unref(Update(tb, c, x.(jobs := [], handle := false)), c), x.session), x.jobs)
  }

  /** After a reply: whether the owner is done with the context, and the closures run. */
  function FinishStep(tb: Table, c: nat): (Table, bool, seq<nat>)
    requires Valid(tb, c) && CacheValid(tb) && tb.contexts[c].jobs != []
  {
    var x := tb.contexts[c].(jobs := tb.contexts[c].jobs[1..]);
    var popped := Update(tb, c, x);
    if x.complete || !x.ok then
      var (deleted, ran) := DeleteStep(popped, c);
      (deleted, true, ran)
    else if x.jobs == [] then (Unref(Update(tb, c, x.(handle := false)), c), true, [])
    else (popped, false, [])
  }

  // ---------- the manager ----------

  class ScanContextManager {
    var contexts: seq<Context>
    var cache: map<int, nat>

    ghost function View(): Table
      reads this
    {
      Table(contexts, cache)
    }

    constructor ()
      ensures View() == Table([], map[])
    {
      contexts, cache := [], map[];
    }

    method Release(c: nat)
      requires Valid(View(), c)
      modifies this`contexts
      ensures View() == Unref(old(View()), c)
    {
      var x := contexts[c];
      x := x.(refs := x.refs - 1);
      contexts := contexts[c := x.(freed := x.refs <= 0)];
    }

    method EraseKey(session: int)
      requires CacheValid(View())
      modifies this
      ensures View() == Erase(old(View()), session)
    {
      if session in cache {
        var c := cache[session];
        cache := cache - {session};
        Release(c);
      }
    }

    method GetScanContext(session: int, partOfSession: bool, job: nat) returns (context: Option<nat>, ran: seq<nat>)
      requires CacheValid(View())
      modifies this
      ensures (View(), context, ran) == GetStep(old(View()), session, partOfSession, job)
    {
      context, ran := None, [];
      if session in cache {
        var c := cache[session];
        var x := contexts[c];
        x := x.(refs := x.refs + 1);
        x := x.(jobs := x.jobs + [job]);
        if |x.jobs| > 1 {
          contexts := contexts[c := x];
          Release(c);
          return;
        }
        x := x.(handle := true);
        contexts := contexts[c := x];
        return Some(c), [];
      }
      if partOfSession {
        ran := [job];
        return;
      }
      var x := Context(session, [], false, 2, false, false, 0, false, true);
      context := Some(|contexts|);
      cache := cache[session := |contexts|];
      contexts := contexts + [x.(jobs := [job], handle := true)];
    }
  
    /** ScheduleScanContext, once the front job's closure has run. */
    method FinishJob(c: nat) returns (done: bool, ran: seq<nat>)
      requires Valid(View(), c) && CacheValid(View()) && contexts[c].jobs != []
      modifies this
      ensures (View(), done, ran) == FinishStep(old(View()), c)
    {
      done, ran := false, [];
      var x := contexts[c];
      x := x.(jobs := x.jobs[1..]);
      if x.complete || !x.ok {
        contexts := contexts[c := x];
        ran := DeleteScanContext(c);
        done := true;
      } else if |x.jobs| == 0 {
        contexts := contexts[c := x.(handle := false)];
        Release(c);
        done := true;
      } else {
        contexts := contexts[c := x];
      }
    }

    method DeleteScanContext(c: nat) returns (ran: seq<nat>)
      requires Valid(View(), c) && CacheValid(View())
      modifies this
      ensures (View(), ran) == DeleteStep(old(View()), c)
    {
      var x := contexts[c];
      var jobSize := |x.jobs|;
      ran := [];
      while jobSize > 0
        invariant jobSize == |x.jobs| && x == contexts[c].(jobs := x.jobs)
        invariant ran + x.jobs == contexts[c].jobs
      {
        ran := ran + [x.jobs[0]];
        x := x.(jobs := x.jobs[1..]);
        jobSize := jobSize - 1;
      }
      assert x.jobs == [] && ran + x.jobs == ran;
      var session := x.session;
      contexts := contexts[c := x.(handle := false)];
      Release(c);
      EraseKey(session);
    }
  }
}

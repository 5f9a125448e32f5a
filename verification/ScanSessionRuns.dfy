/** Every run of the scan session manager: requests arrive, owners serve, the cache evicts,
    in any order. */
module ScanSessionRuns {
  import opened Collections
  import opened ScanSessions

  /** How far a thread that owns a context has come. */
  datatype Phase = Starting | Looping | Serving(job: nat) | Served

  datatype Thread = Thread(context: nat, phase: Phase)

  datatype System = System(tb: Table, threads: map<nat, Thread>)

  datatype Event =
    | Arrive(t: nat, session: int, partOfSession: bool, job: nat)
    | Start(t: nat, ok: bool)
    | Take(t: nat)
    | Serve(t: nat, complete: bool, ok: bool)
    | Finish(t: nat)
    | Abort(t: nat)
    | Evict(session: int)

  const Empty := System(Table([], map[]), map[])

  /** The thread is in this phase of its loop. */
  predicate In(p: System, t: nat, phase: Phase) {
    t in p.threads && p.threads[t].phase == phase
  }

  predicate StatusOk(p: System, t: nat) {
    t in p.threads && Valid(p.tb, p.threads[t].context) && p.tb.contexts[p.threads[t].context].ok
  }

  /** What can happen next.  A thread follows ScheduleScanContext; requests and evictions
      come at any time. */
  predicate Enabled(p: System, e: Event) {
    match e
    case Arrive(t, session, partOfSession, job) => t !in p.threads
    case Start(t, ok) => In(p, t, Starting)
    case Take(t) => In(p, t, Looping) && StatusOk(p, t)
    case Serve(t, complete, ok) => t in p.threads && p.threads[t].phase.Serving?
    case Finish(t) => In(p, t, Served)
    case Abort(t) => In(p, t, Looping) && !StatusOk(p, t)
    case Evict(session) => session in p.tb.cache
  }

  /** What the step relies on without checking: its context exists, and a queue whose
      front it takes is not empty. */
  predicate Sound(p: System, e: Event) {
    && CacheValid(p.tb)
    && (e.Start? || e.Take? || e.Serve? || e.Finish? || e.Abort? ==>
          e.t in p.threads && Valid(p.tb, p.threads[e.t].context) &&
          !p.tb.contexts[p.threads[e.t].context].freed)
    && (e.Take? || e.Finish? ==> p.tb.contexts[p.threads[e.t].context].jobs != [])
  }

  /** The step, and the closures it runs. */
  function Apply(p: System, e: Event): (System, seq<nat>) {
    if !Sound(p, e) then (p, [])
    else match e
      case Arrive(t, session, partOfSession, job) =>
        var (tb, c, ran) := GetStep(p.tb, session, partOfSession, job);
        (System(tb, if c.Some? then p.threads[t := Thread(c.value, Starting)] else p.threads), ran)
      case Start(t, ok) =>
        var c := p.threads[t].context;
        (System(StartStep(p.tb, c, ok), p.threads[t := Thread(c, Looping)]), [])
      case Take(t) =>
        var c := p.threads[t].context;
        (System(p.tb, p.threads[t := Thread(c, Serving(p.tb.contexts[c].jobs[0]))]), [])
      case Serve(t, complete, ok) =>
        var c := p.threads[t].context;
        (System(ServeStep(p.tb, c, complete, ok), p.threads[t := Thread(c, Served)]),
         if p.threads[t].phase.Serving? then [p.threads[t].phase.job] else [])
      case Finish(t) =>
        var c := p.threads[t].context;
        var (tb, done, ran) := FinishStep(p.tb, c);
        (System(tb, if done then p.threads - {t} else p.threads[t := Thread(c, Looping)]), ran)
      case Abort(t) =>
        var (tb, ran) := DeleteStep(p.tb, p.threads[t].context);
        (System(tb, p.threads - {t}), ran)
      case Evict(session) => (System(Erase(p.tb, session), p.threads), [])
  }

  // ---------- what every state keeps ----------

  predicate InCache(tb: Table, c: nat)
    requires Valid(tb, c)
  {
    tb.contexts[c].session in tb.cache && tb.cache[tb.contexts[c].session] == c
  }

  ghost predicate Owned(threads: map<nat, Thread>, c: nat) {
    exists t :: t in threads && threads[t].context == c
  }

  function One(b: bool): nat {
    if b then 1 else 0
  }

  /** A context is owned exactly while jobs wait; the cache and the owner each hold one
      reference, and the context is freed when neither does. */
  ghost predicate Fine(x: Context, inCache: bool, owned: bool) {
    && (x.jobs != [] <==> owned) && (x.handle <==> owned)
    && x.refs == One(inCache) + One(owned) && (x.freed <==> x.refs == 0)
  }

  ghost predicate Keyed(tb: Table) {
    CacheValid(tb) && forall s :: s in tb.cache ==> tb.contexts[tb.cache[s]].session == s
  }

  /** Never two owners. */
  ghost predicate OneOwner(threads: map<nat, Thread>) {
    forall t, u :: t in threads && u in threads && threads[t].context == threads[u].context ==> t == u
  }

  ghost predicate Owning(p: System) {
    forall t :: t in p.threads ==>
      && Valid(p.tb, p.threads[t].context)
      && (p.threads[t].phase.Serving? ==> [p.threads[t].phase.job] <= p.tb.contexts[p.threads[t].context].jobs)
  }

  ghost predicate AllFine(p: System) {
    forall c :: 0 <= c < |p.tb.contexts| ==> Fine(p.tb.contexts[c], InCache(p.tb, c), Owned(p.threads, c))
  }

  ghost predicate Kept(p: System) {
    Keyed(p.tb) && OneOwner(p.threads) && Owning(p) && AllFine(p)
  }

  lemma KeptIsSound(p: System, e: Event)
    requires Kept(p) && Enabled(p, e)
    ensures Sound(p, e)
  {
    if e.Start? || e.Take? || e.Serve? || e.Finish? || e.Abort? {
      var c := p.threads[e.t].context;
      assert Owned(p.threads, c);
      assert Fine(p.tb.contexts[c], InCache(p.tb, c), Owned(p.threads, c));
    }
  }

  // ---------- one step ----------

  /** A step that changes one context, not its session, and at most its owner. */
  lemma KeptChange(p: System, p': System, c: nat)
    requires Kept(p) && Valid(p.tb, c) && Valid(p'.tb, c) && p'.tb == Update(p.tb, c, p'.tb.contexts[c])
    requires p'.tb.contexts[c].session == p.tb.contexts[c].session
    requires OneOwner(p'.threads) && Owning(p')
    requires forall d :: d != c ==> (Owned(p'.threads, d) <==> Owned(p.threads, d))
    requires Fine(p'.tb.contexts[c], InCache(p.tb, c), Owned(p'.threads, c))
    ensures Kept(p')
  {
    forall d | 0 <= d < |p'.tb.contexts|
      ensures Fine(p'.tb.contexts[d], InCache(p'.tb, d), Owned(p'.threads, d))
    {
      assert InCache(p'.tb, d) <==> InCache(p.tb, d);
      assert Fine(p.tb.contexts[d], InCache(p.tb, d), Owned(p.threads, d));
    }
  }

  lemma OwnerAdded(threads: map<nat, Thread>, t: nat, c: nat, phase: Phase)
    requires OneOwner(threads) && t !in threads && !Owned(threads, c)
    ensures var more := threads[t := Thread(c, phase)];
            OneOwner(more) && Owned(more, c) && forall d :: d != c ==> (Owned(more, d) <==> Owned(threads, d))
  {
    var more := threads[t := Thread(c, phase)];
    assert more[t].context == c;
    forall d | d != c ensures Owned(more, d) <==> Owned(threads, d) {
      if Owned(threads, d) {
        var u :| u in threads && threads[u].context == d;
        assert u in more && more[u].context == d;
      }
    }
  }

  lemma OwnerMoves(threads: map<nat, Thread>, t: nat, phase: Phase)
    requires OneOwner(threads) && t in threads
    ensures var c := threads[t].context;
            var more := threads[t := Thread(c, phase)];
            OneOwner(more) && Owned(more, c) && forall d :: Owned(more, d) <==> Owned(threads, d)
  {
    var c := threads[t].context;
    var more := threads[t := Thread(c, phase)];
    assert more[t].context == c;
    forall d ensures Owned(more, d) <==> Owned(threads, d) {
      if Owned(threads, d) {
        var u :| u in threads && threads[u].context == d;
        assert u in more && more[u].context == d;
      }
    }
  }

  lemma OwnerLeaves(threads: map<nat, Thread>, t: nat)
    requires OneOwner(threads) && t in threads
    ensures var c := threads[t].context;
            var rest := threads - {t};
            OneOwner(rest) && !Owned(rest, c) && forall d :: d != c ==> (Owned(rest, d) <==> Owned(threads, d))
  {
    var c := threads[t].context;
    var rest := threads - {t};
    forall d | d != c ensures Owned(rest, d) <==> Owned(threads, d) {
      if Owned(threads, d) {
        var u :| u in threads && threads[u].context == d;
        assert u in rest && rest[u].context == d;
      }
    }
  }

  lemma ArriveWaits(p: System, c: nat, job: nat)
    requires Kept(p) && Valid(p.tb, c) && p.tb.contexts[c].jobs != []
    ensures var x := p.tb.contexts[c];
            var y := x.(refs := x.refs + 1, jobs := x.jobs + [job]);
            Kept(System(Unref(Update(p.tb, c, y), c), p.threads))
  {
    var x := p.tb.contexts[c];
    var y := x.(refs := x.refs + 1, jobs := x.jobs + [job]);
    assert Fine(x, InCache(p.tb, c), Owned(p.threads, c));
    KeptChange(p, System(Unref(Update(p.tb, c, y), c), p.threads), c);
  }

  lemma ArriveOwns(p: System, t: nat, c: nat, job: nat)
    requires Kept(p) && Valid(p.tb, c) && p.tb.contexts[c].jobs == [] && t !in p.threads
    ensures var x := p.tb.contexts[c];
            var y := x.(refs := x.refs + 1, jobs := x.jobs + [job], handle := true);
            InCache(p.tb, c) ==> Kept(System(Update(p.tb, c, y), p.threads[t := Thread(c, Starting)]))
  {
    var x := p.tb.contexts[c];
    var y := x.(refs := x.refs + 1, jobs := x.jobs + [job], handle := true);
    assert Fine(x, InCache(p.tb, c), Owned(p.threads, c));
    OwnerAdded(p.threads, t, c, Starting);
    if InCache(p.tb, c) {
      KeptChange(p, System(Update(p.tb, c, y), p.threads[t := Thread(c, Starting)]), c);
    }
  }

  lemma ArriveMakes(p: System, t: nat, session: int, job: nat)
    requires Kept(p) && t !in p.threads && session !in p.tb.cache
    ensures var c := |p.tb.contexts|;
            var x := Context(session, [job], true, 2, false, false, 0, false, true);
            Kept(System(Table(p.tb.contexts + [x], p.tb.cache[session := c]), p.threads[t := Thread(c, Starting)]))
  {
    var c := |p.tb.contexts|;
    var x := Context(session, [job], true, 2, false, false, 0, false, true);
    var p' := System(Table(p.tb.contexts + [x], p.tb.cache[session := c]), p.threads[t := Thread(c, Starting)]);
    assert !Owned(p.threads, c);
    OwnerAdded(p.threads, t, c, Starting);
    forall d | 0 <= d < |p'.tb.contexts|
      ensures Fine(p'.tb.contexts[d], InCache(p'.tb, d), Owned(p'.threads, d))
    {
      if d != c {
        assert InCache(p'.tb, d) <==> InCache(p.tb, d);
        assert Fine(p.tb.contexts[d], InCache(p.tb, d), Owned(p.threads, d));
      }
    }
  }

  lemma KeptByArrive(p: System, e: Event)
    requires Kept(p) && Enabled(p, e) && e.Arrive?
    ensures Kept(Apply(p, e).0)
  {
    if e.session in p.tb.cache {
      var c := p.tb.cache[e.session];
      assert InCache(p.tb, c);
      if p.tb.contexts[c].jobs != [] {
        ArriveWaits(p, c, e.job);
      } else {
        ArriveOwns(p, e.t, c, e.job);
      }
    } else if !e.partOfSession {
      ArriveMakes(p, e.t, e.session, e.job);
    }
  }

  lemma KeptByOwner(p: System, e: Event)
    requires Kept(p) && Enabled(p, e) && (e.Start? || e.Take? || e.Serve?)
    ensures Kept(Apply(p, e).0)
  {
    KeptIsSound(p, e);
    var c := p.threads[e.t].context;
    var p' := Apply(p, e).0;
    assert Fine(p.tb.contexts[c], InCache(p.tb, c), Owned(p.threads, c));
    OwnerMoves(p.threads, e.t, p'.threads[e.t].phase);
    KeptChange(p, p', c);
  }

  /** Giving up a context whose queue is empty. */
  lemma KeptByRelease(p: System, t: nat, x: Context)
    requires Kept(p) && t in p.threads && x.jobs == [] && !x.handle
    requires var y := p.tb.contexts[p.threads[t].context];
             x.session == y.session && x.refs == y.refs && x.freed == y.freed
    ensures var c := p.threads[t].context;
            Kept(System(Unref(Update(p.tb, c, x), c), p.threads - {t}))
  {
    var c := p.threads[t].context;
    assert Owned(p.threads, c);
    assert Fine(p.tb.contexts[c], InCache(p.tb, c), Owned(p.threads, c));
    OwnerLeaves(p.threads, t);
    KeptChange(p, System(Unref(Update(p.tb, c, x), c), p.threads - {t}), c);
  }

  lemma KeptByErase(p: System, session: int)
    requires Kept(p)
    ensures Kept(System(Erase(p.tb, session), p.threads))
  {
    if session in p.tb.cache {
      var c := p.tb.cache[session];
      var p' := System(Erase(p.tb, session), p.threads);
      assert InCache(p.tb, c);
      forall d | 0 <= d < |p'.tb.contexts|
        ensures Fine(p'.tb.contexts[d], InCache(p'.tb, d), Owned(p'.threads, d))
      {
        assert d != c ==> (InCache(p'.tb, d) <==> InCache(p.tb, d));
        assert Fine(p.tb.contexts[d], InCache(p.tb, d), Owned(p.threads, d));
      }
    }
  }

  lemma KeptByDelete(p: System, t: nat, x: Context)
    requires Kept(p) && t in p.threads
    requires var y := p.tb.contexts[p.threads[t].context]; x == y.(jobs := x.jobs)
    ensures var c := p.threads[t].context;
            Kept(System(DeleteStep(Update(p.tb, c, x), c).0, p.threads - {t}))
  {
    var c := p.threads[t].context;
    var y := x.(jobs := [], handle := false);
    KeptByRelease(p, t, y);
    var q := System(Unref(Update(p.tb, c, y), c), p.threads - {t});
    assert Update(Update(p.tb, c, x), c, y) == Update(p.tb, c, y);
    KeptByErase(q, x.session);
  }

  lemma KeptByFinish(p: System, e: Event)
    requires Kept(p) && Enabled(p, e) && e.Finish?
    ensures Kept(Apply(p, e).0)
  {
    KeptIsSound(p, e);
    var t, c := e.t, p.threads[e.t].context;
    var x := p.tb.contexts[c].(jobs := p.tb.contexts[c].jobs[1..]);
    if x.complete || !x.ok {
      KeptByDelete(p, t, x);
    } else if x.jobs == [] {
      KeptByRelease(p, t, x.(handle := false));
    } else {
      assert Fine(p.tb.contexts[c], InCache(p.tb, c), Owned(p.threads, c));
      OwnerMoves(p.threads, t, Looping);
      KeptChange(p, Apply(p, e).0, c);
    }
  }

  lemma KeptByAbort(p: System, e: Event)
    requires Kept(p) && Enabled(p, e) && e.Abort?
    ensures Kept(Apply(p, e).0)
  {
    KeptIsSound(p, e);
    var c := p.threads[e.t].context;
    KeptByDelete(p, e.t, p.tb.contexts[c]);
    assert Update(p.tb, c, p.tb.contexts[c]) == p.tb;
  }

  lemma KeptByStep(p: System, e: Event)
    requires Kept(p) && Enabled(p, e)
    ensures Kept(Apply(p, e).0)
  {
    match e {
      case Arrive(_, _, _, _) => KeptByArrive(p, e);
      case Finish(_) => KeptByFinish(p, e);
      case Abort(_) => KeptByAbort(p, e);
      case Evict(session) => KeptByErase(p, session);
      case _ => KeptByOwner(p, e);
    }
  }

  // ---------- runs ----------

  function Replay(log: seq<Event>): System {
    if log == [] then Empty else Apply(Replay(log[..|log| - 1]), log[|log| - 1]).0
  }

  /** The closures run, in order. */
  function Ran(log: seq<Event>): seq<nat> {
    if log == [] then []
    else Ran(log[..|log| - 1]) + Apply(Replay(log[..|log| - 1]), log[|log| - 1]).1
  }

  /** The closures submitted, in order. */
  function Submitted(log: seq<Event>): seq<nat> {
    if log == [] then []
    else Submitted(log[..|log| - 1]) + Submits(log[|log| - 1])
  }

  function Submits(e: Event): seq<nat> {
    if e.Arrive? then [e.job] else []
  }

  predicate Run(log: seq<Event>) {
    log == [] || (Run(log[..|log| - 1]) && Enabled(Replay(log[..|log| - 1]), log[|log| - 1]))
  }

  /** In every reachable state a context has an owner exactly while jobs wait for it, never
      two, and is freed exactly when neither the cache nor an owner refers to it. */
  lemma {:induction false} AlwaysKept(log: seq<Event>)
    requires Run(log)
    ensures Kept(Replay(log))
  {
    if log == [] {
      assert forall t :: t !in Empty.threads;
    } else {
      AlwaysKept(log[..|log| - 1]);
      KeptByStep(Replay(log[..|log| - 1]), log[|log| - 1]);
    }
  }

  /** No step touches a freed context or takes the front of an empty queue. */
  lemma AlwaysSound(log: seq<Event>, e: Event)
    requires Run(log) && Enabled(Replay(log), e)
    ensures Sound(Replay(log), e)
  {
    AlwaysKept(log);
    KeptIsSound(Replay(log), e);
  }

  // ---------- no closure is lost or run twice ----------

  /** The closures a context still has to run: a served one stays in the queue until its
      owner takes the lock again. */
  ghost function Unserved(p: System, c: nat): seq<nat>
    requires Valid(p.tb, c)
  {
    var jobs := p.tb.contexts[c].jobs;
    if jobs != [] && ServedOwner(p.threads, c) then jobs[1..] else jobs
  }

  ghost predicate ServedOwner(threads: map<nat, Thread>, c: nat) {
    exists t :: t in threads && threads[t] == Thread(c, Served)
  }

  /** The closures waiting in the first `n` contexts. */
  ghost function Waiting(p: System, n: nat): multiset<nat>
    requires n <= |p.tb.contexts|
  {
    if n == 0 then multiset{} else Waiting(p, n - 1) + multiset(Unserved(p, n - 1))
  }

  ghost function AllWaiting(p: System): multiset<nat> {
    Waiting(p, |p.tb.contexts|)
  }

  lemma {:induction false} WaitingSame(p: System, p': System, n: nat)
    requires n <= |p.tb.contexts| && n <= |p'.tb.contexts|
    requires forall d :: 0 <= d < n ==> Unserved(p, d) == Unserved(p', d)
    ensures Waiting(p, n) == Waiting(p', n)
  {
    if n > 0 { WaitingSame(p, p', n - 1); }
  }

  lemma AddBoth(a: multiset<nat>, b: multiset<nat>, u: multiset<nat>, u': multiset<nat>, w: multiset<nat>)
    requires a + u == b + u'
    ensures (a + w) + u == (b + w) + u'
  {
    assert (a + w) + u == (a + u) + w;
    assert (b + w) + u' == (b + u') + w;
  }

  /** Only the closures of `c` changed. */
  lemma {:induction false} WaitingChange(p: System, p': System, n: nat, c: nat)
    requires c < n <= |p.tb.contexts| && n <= |p'.tb.contexts|
    requires forall d :: 0 <= d < n && d != c ==> Unserved(p, d) == Unserved(p', d)
    ensures Waiting(p', n) + multiset(Unserved(p, c)) == Waiting(p, n) + multiset(Unserved(p', c))
  {
    if n - 1 == c {
      WaitingSame(p, p', c);
    } else {
      WaitingChange(p, p', n - 1, c);
      assert Unserved(p, n - 1) == Unserved(p', n - 1);
      AddBoth(Waiting(p', n - 1), Waiting(p, n - 1), multiset(Unserved(p, c)), multiset(Unserved(p', c)),
              multiset(Unserved(p, n - 1)));
    }
  }

  /** The closures of the other contexts stay, those of `c` go from `u` to `u'`. */
  ghost predicate Flows(p: System, p': System, c: nat, u: seq<nat>, u': seq<nat>) {
    && |p'.tb.contexts| == |p.tb.contexts| && Valid(p.tb, c)
    && (forall d :: 0 <= d < |p.tb.contexts| && d != c ==> Unserved(p, d) == Unserved(p', d))
    && Unserved(p, c) == u && Unserved(p', c) == u'
  }

  lemma FlowCounts(p: System, p': System, c: nat, u: seq<nat>, u': seq<nat>, submits: seq<nat>, ran: seq<nat>)
    requires Flows(p, p', c, u, u') && u + submits == ran + u'
    ensures AllWaiting(p) + multiset(submits) == multiset(ran) + AllWaiting(p')
  {
    WaitingChange(p, p', |p.tb.contexts|, c);
    var w, w', mu, mu', ms, mr :=
      AllWaiting(p), AllWaiting(p'), multiset(u), multiset(u'), multiset(submits), multiset(ran);
    assert mu + ms == mr + mu' by {
      assert multiset(u + submits) == mu + ms;
      assert multiset(ran + u') == mr + mu';
    }
    forall x ensures (w + ms)[x] == (mr + w')[x] {
      assert (w' + mu)[x] == (w + mu')[x];
      assert (mu + ms)[x] == (mr + mu')[x];
    }
  }

  lemma ServedStays(p: System, threads: map<nat, Thread>, t: nat, c: nat)
    requires OneOwner(p.threads) && OneOwner(threads)
    requires forall u :: u != t ==> (u in threads <==> u in p.threads) && (u in threads ==> threads[u] == p.threads[u])
    requires t in p.threads ==> p.threads[t].context == c
    requires t in threads ==> threads[t].context == c
    ensures forall d :: d != c ==> (ServedOwner(threads, d) <==> ServedOwner(p.threads, d))
    ensures t in p.threads ==> (ServedOwner(p.threads, c) <==> p.threads[t].phase == Served)
    ensures t in threads ==> (ServedOwner(threads, c) <==> threads[t].phase == Served)
  {
    forall d | d != c ensures ServedOwner(threads, d) <==> ServedOwner(p.threads, d) {
      if ServedOwner(threads, d) {
        var u :| u in threads && threads[u] == Thread(d, Served);
        assert u in p.threads && p.threads[u] == Thread(d, Served);
      }
      if ServedOwner(p.threads, d) {
        var u :| u in p.threads && p.threads[u] == Thread(d, Served);
        assert u in threads && threads[u] == Thread(d, Served);
      }
    }
    if t in p.threads && p.threads[t].phase == Served {
      assert p.threads[t] == Thread(c, Served);
    }
    if t in threads && threads[t].phase == Served {
      assert threads[t] == Thread(c, Served);
    }
  }

  lemma FlowOfOwner(p: System, e: Event) returns (c: nat, u: seq<nat>, u': seq<nat>)
    requires Kept(p) && Enabled(p, e) && Sound(p, e) && (e.Start? || e.Take? || e.Serve?)
    ensures Flows(p, Apply(p, e).0, c, u, u') && u == Apply(p, e).1 + u' && c == p.threads[e.t].context
  {
    var p' := Apply(p, e).0;
    c := p.threads[e.t].context;
    OwnerMoves(p.threads, e.t, p'.threads[e.t].phase);
    ServedStays(p, p'.threads, e.t, c);
    u, u' := Unserved(p, c), Unserved(p', c);
    assert Fine(p.tb.contexts[c], InCache(p.tb, c), Owned(p.threads, c));
  }

  /** Only the queue of `c` changed. */
  ghost predicate QueuesKept(tb: Table, tb': Table, c: nat) {
    && |tb'.contexts| == |tb.contexts|
    && forall d :: 0 <= d < |tb.contexts| && d != c ==> tb'.contexts[d].jobs == tb.contexts[d].jobs
  }

  lemma EraseJobs(tb: Table, session: int)
    requires CacheValid(tb)
    ensures var tb' := Erase(tb, session);
            |tb'.contexts| == |tb.contexts| && forall d :: 0 <= d < |tb.contexts| ==> tb'.contexts[d].jobs == tb.contexts[d].jobs
  {
  }

  lemma DeleteJobs(tb: Table, c: nat)
    requires Valid(tb, c) && CacheValid(tb)
    ensures QueuesKept(tb, DeleteStep(tb, c).0, c) && DeleteStep(tb, c).0.contexts[c].jobs == []
  {
    var x := tb.contexts[c];
    EraseJobs(Unref(Update(tb, c, x.(jobs := [], handle := false)), c), x.session);
  }

  lemma FinishJobs(tb: Table, c: nat)
    requires Valid(tb, c) && CacheValid(tb) && tb.contexts[c].jobs != []
    ensures var (tb', done, ran) := FinishStep(tb, c);
            && QueuesKept(tb, tb', c) && tb.contexts[c].jobs[1..] == ran + tb'.contexts[c].jobs
            && (done ==> tb'.contexts[c].jobs == [])
  {
    var x := tb.contexts[c].(jobs := tb.contexts[c].jobs[1..]);
    DeleteJobs(Update(tb, c, x), c);
  }

  lemma FlowFrom(p: System, p': System, t: nat, c: nat)
    requires Valid(p.tb, c) && QueuesKept(p.tb, p'.tb, c) && OneOwner(p.threads) && OneOwner(p'.threads)
    requires forall u :: u != t ==>
               (u in p'.threads <==> u in p.threads) && (u in p'.threads ==> p'.threads[u] == p.threads[u])
    requires t in p.threads && p.threads[t].context == c && (t in p'.threads ==> p'.threads[t] == Thread(c, Looping))
    requires t !in p'.threads ==> p'.tb.contexts[c].jobs == []
    ensures var jobs := p.tb.contexts[c].jobs;
            var u := if jobs != [] && p.threads[t].phase == Served then jobs[1..] else jobs;
            Flows(p, p', c, u, p'.tb.contexts[c].jobs)
  {
    ServedStays(p, p'.threads, t, c);
  }

  lemma FlowOfFinish(p: System, e: Event) returns (c: nat, u: seq<nat>, u': seq<nat>)
    requires Kept(p) && Enabled(p, e) && Sound(p, e) && (e.Finish? || e.Abort?)
    ensures Flows(p, Apply(p, e).0, c, u, u') && u == Apply(p, e).1 + u' && c == p.threads[e.t].context
  {
    var (p', ran) := Apply(p, e);
    c := p.threads[e.t].context;
    var jobs := p.tb.contexts[c].jobs;
    if e.Finish? {
      FinishJobs(p.tb, c);
      u := jobs[1..];
    } else {
      DeleteJobs(p.tb, c);
      u := jobs;
    }
    u' := p'.tb.contexts[c].jobs;
    assert OneOwner(p'.threads) by { KeptByStep(p, e); }
    FlowFrom(p, p', e.t, c);
  }

  lemma FlowOfEvict(p: System, e: Event)
    requires Kept(p) && e.Evict?
    ensures var p' := Apply(p, e).0;
            |p'.tb.contexts| == |p.tb.contexts| && forall d :: 0 <= d < |p.tb.contexts| ==> Unserved(p', d) == Unserved(p, d)
  {
    EraseJobs(p.tb, e.session);
  }

  /** A request joins the queue of the context in the cache. */
  lemma FlowOfHit(p: System, e: Event) returns (c: nat, u: seq<nat>, u': seq<nat>)
    requires Kept(p) && Enabled(p, e) && e.Arrive? && e.session in p.tb.cache
    ensures Flows(p, Apply(p, e).0, c, u, u') && u' == u + [e.job] && Apply(p, e).1 == [] && c == p.tb.cache[e.session]
  {
    c := p.tb.cache[e.session];
    var p' := Apply(p, e).0;
    u, u' := Unserved(p, c), Unserved(p', c);
    assert Fine(p.tb.contexts[c], InCache(p.tb, c), Owned(p.threads, c));
    assert OneOwner(p'.threads) by { KeptByArrive(p, e); }
    ServedStays(p, p'.threads, e.t, c);
    if ServedOwner(p.threads, c) {
      var t :| t in p.threads && p.threads[t] == Thread(c, Served);
      assert Owned(p.threads, c);
    }
  }

  /** A first request brings a context of its own. */
  lemma FlowOfNew(p: System, e: Event)
    requires Kept(p) && Enabled(p, e) && e.Arrive? && e.session !in p.tb.cache && !e.partOfSession
    ensures var n := |p.tb.contexts|;
            var p' := Apply(p, e).0;
            && |p'.tb.contexts| == n + 1 && Unserved(p', n) == [e.job] && Apply(p, e).1 == []
            && forall d :: 0 <= d < n ==> Unserved(p', d) == Unserved(p, d)
  {
    var n := |p.tb.contexts|;
    var p' := Apply(p, e).0;
    assert OneOwner(p'.threads) by { KeptByArrive(p, e); }
    ServedStays(p, p'.threads, e.t, n);
  }

  ghost predicate Balanced(p: System, submits: seq<nat>, p': System, ran: seq<nat>) {
    AllWaiting(p) + multiset(submits) == multiset(ran) + AllWaiting(p')
  }

  lemma ArriveBalanced(p: System, e: Event)
    requires Kept(p) && Enabled(p, e) && Sound(p, e) && e.Arrive?
    ensures Balanced(p, [e.job], Apply(p, e).0, Apply(p, e).1)
  {
    var (p', ran) := Apply(p, e);
    if e.session in p.tb.cache {
      var c, u, u' := FlowOfHit(p, e);
      assert ran + u' == u';
      FlowCounts(p, p', c, u, u', [e.job], ran);
    } else if !e.partOfSession {
      FlowOfNew(p, e);
      WaitingSame(p, p', |p.tb.contexts|);
    }
  }

  lemma EvictBalanced(p: System, e: Event)
    requires Kept(p) && e.Evict?
    ensures Balanced(p, [], Apply(p, e).0, Apply(p, e).1)
  {
    FlowOfEvict(p, e);
    WaitingSame(p, Apply(p, e).0, |p.tb.contexts|);
  }

  lemma ThreadBalanced(p: System, e: Event)
    requires Kept(p) && Enabled(p, e) && Sound(p, e) && !e.Arrive? && !e.Evict?
    ensures Balanced(p, [], Apply(p, e).0, Apply(p, e).1)
  {
    var c, u, u';
    if e.Finish? || e.Abort? {
      c, u, u' := FlowOfFinish(p, e);
    } else {
      c, u, u' := FlowOfOwner(p, e);
    }
    assert u + [] == u;
    FlowCounts(p, Apply(p, e).0, c, u, u', [], Apply(p, e).1);
  }

  lemma FlowStep(p: System, e: Event)
    requires Kept(p) && Enabled(p, e)
    ensures Balanced(p, Submits(e), Apply(p, e).0, Apply(p, e).1)
  {
    KeptIsSound(p, e);
    if e.Arrive? {
      ArriveBalanced(p, e);
    } else if e.Evict? {
      EvictBalanced(p, e);
    } else {
      ThreadBalanced(p, e);
    }
  }

  /** Every closure submitted has been run once or is waiting: none is lost, none is run
      twice. */
  lemma {:induction false} ClosuresConserved(log: seq<Event>)
    requires Run(log)
    ensures multiset(Submitted(log)) == multiset(Ran(log)) + AllWaiting(Replay(log))
  {
    if log != [] {
      var before, e := log[..|log| - 1], log[|log| - 1];
      ClosuresConserved(before);
      AlwaysKept(before);
      var p := Replay(before);
      FlowStep(p, e);
      JoinCounts(Submitted(before), Ran(before), Submits(e), Apply(p, e).1, AllWaiting(p), AllWaiting(Apply(p, e).0));
    }
  }

  lemma JoinCounts(submitted: seq<nat>, ran: seq<nat>, submits: seq<nat>, runs: seq<nat>, w: multiset<nat>,
                   w': multiset<nat>)
    requires multiset(submitted) == multiset(ran) + w && w + multiset(submits) == multiset(runs) + w'
    ensures multiset(submitted + submits) == multiset(ran + runs) + w'
  {
    var a, b, c, d := multiset(submitted), multiset(ran), multiset(submits), multiset(runs);
    forall x ensures (a + c)[x] == (b + d + w')[x] {
      assert a[x] == b[x] + w[x];
      assert (w + c)[x] == (d + w')[x];
    }
  }

  /** A closure still waiting is in the queue of a context that has an owner. */
  lemma {:induction false} WaitingIsOwned(p: System, n: nat, job: nat) returns (c: nat)
    requires Kept(p) && n <= |p.tb.contexts| && job in Waiting(p, n)
    ensures Valid(p.tb, c) && job in p.tb.contexts[c].jobs && Owned(p.threads, c)
  {
    if job in Unserved(p, n - 1) {
      c := n - 1;
      assert Fine(p.tb.contexts[c], InCache(p.tb, c), Owned(p.threads, c));
    } else {
      c := WaitingIsOwned(p, n - 1, job);
    }
  }
}

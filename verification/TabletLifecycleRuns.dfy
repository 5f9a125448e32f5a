/** Every interleaving of loads, unloads and operations on one tablet. */
module TabletLifecycleRuns {
  import opened TabletLifecycle

  /** Where a thread that holds a reference stands. */
  datatype Phase =
    | Using(kind: Kind)
    | Opening | Opened | OpenFailed
    | Shutting | Waiting | Draining | Stopped | Freed

  datatype System = System(tablet: Tablet, threads: map<nat, Phase>)

  const Start := System(Initial, map[])

  datatype Event =
    | Enter(t: nat, kind: Kind, unloadLimit: nat)
    | Use(t: nat)
    | Leave(t: nat)
    | Load(t: nat)
    | Open(t: nat, ok: bool)
    | LoadEnd(t: nat)
    | Unload(t: nat)
    | Shutdown(t: nat)
    | Check(t: nat)
    | StopWriter(t: nat)
    | FreeDb(t: nat)
    | UnloadEnd(t: nat)

  predicate In(p: System, t: nat, phase: Phase) {
    t in p.threads && p.threads[t] == phase
  }

  predicate Enabled(p: System, e: Event) {
    match e
    case Enter(t, _, _) => t !in p.threads
    case Load(t) => t !in p.threads
    case Unload(t) => t !in p.threads
    case Use(t) => t in p.threads && p.threads[t].Using?
    case Leave(t) => t in p.threads && p.threads[t].Using?
    case Open(t, _) => In(p, t, Opening)
    case LoadEnd(t) => In(p, t, Opened) || In(p, t, OpenFailed)
    case Shutdown(t) => In(p, t, Shutting)
    case Check(t) => In(p, t, Waiting)
    case StopWriter(t) => In(p, t, Draining)
    case FreeDb(t) => In(p, t, Stopped)
    case UnloadEnd(t) => In(p, t, Freed)
  }

  /** What the step relies on: the objects it uses exist, those it makes do not, and the
      one who frees is alone. */
  predicate Sound(p: System, e: Event) {
    && (e.Use? ==> p.tablet.db && p.tablet.writer)
    && (e.Open? ==> !p.tablet.db && !p.tablet.writer)
    && (e.Shutdown? ==> p.tablet.db)
    && (e.StopWriter? ==> p.tablet.writer && p.threads.Keys == {e.t})
    && (e.FreeDb? ==> p.tablet.db && p.threads.Keys == {e.t})
  }

  function Put(p: System, tablet: Tablet, t: nat, phase: Phase): System {
    System(tablet, p.threads[t := phase])
  }

  function Drop(p: System, tablet: Tablet, t: nat): System {
    System(tablet, p.threads - {t})
  }

  function Apply(p: System, e: Event): System
    requires Enabled(p, e)
  {
    var x := p.tablet;
    match e
    case Enter(t, kind, unloadLimit) =>
      var (y, ok) := EnterStep(x, kind, unloadLimit);
      if ok then Put(p, y, t, Using(kind)) else p.(tablet := y)
    case Use(t) => p
    case Leave(t) => Drop(p, LeaveStep(x, p.threads[t].kind), t)
    case Load(t) =>
      var (y, r) := LoadStep(x);
      if r == Begun then Put(p, y, t, Opening) else p.(tablet := y)
    case Open(t, ok) => Put(p, x.(db := ok, writer := ok), t, if ok then Opened else OpenFailed)
    case LoadEnd(t) => Drop(p, LoadEndStep(x, p.threads[t] == Opened), t)
    case Unload(t) =>
      var (y, ok) := UnloadStep(x);
      if ok then Put(p, y, t, Shutting) else p.(tablet := y)
    case Shutdown(t) => Put(p, x.(status := Unloading2), t, Waiting)
    case Check(t) => if x.refs > 1 then p else Put(p, x, t, Draining)
    case StopWriter(t) => Put(p, x.(writer := false), t, Stopped)
    case FreeDb(t) => Put(p, x.(db := false), t, Freed)
    case UnloadEnd(t) => Drop(p, x.(status := NotInit, refs := x.refs - 1), t)
  }

  // ---------- what every state keeps ----------

  /** What a thread in this phase can count on. */
  predicate Fits(x: Tablet, phase: Phase) {
    match phase
    case Using(_) => (x.status == Ready || x.status == Unloading || x.status == Unloading2) && x.db && x.writer
    case Opening => x.status == OnLoad && !x.db && !x.writer
    case Opened => x.status == OnLoad && x.db && x.writer
    case OpenFailed => x.status == OnLoad && !x.db && !x.writer
    case Shutting => x.status == Unloading && x.db && x.writer
    case Waiting => x.status == Unloading2 && x.db && x.writer
    case Draining => x.status == Unloading2 && x.db && x.writer
    case Stopped => x.status == Unloading2 && x.db && !x.writer
    case Freed => x.status == Unloading2 && !x.db && !x.writer
  }

  predicate Alone(phase: Phase) {
    !phase.Using? && !phase.Shutting? && !phase.Waiting?
  }

  ghost predicate Kept(p: System) {
    && p.tablet.refs == |p.threads.Keys|
    && (forall t :: t in p.threads ==> Fits(p.tablet, p.threads[t]))
    && (forall t :: t in p.threads && Alone(p.threads[t]) ==> p.threads.Keys == {t})
    && (forall t, u :: t in p.threads && u in p.threads && !p.threads[t].Using? && !p.threads[u].Using? ==> t == u)
    && (p.tablet.status == NotInit ==> p.threads.Keys == {} && !p.tablet.db && !p.tablet.writer)
    && (p.tablet.status == Ready ==> p.tablet.db && p.tablet.writer)
    && (p.tablet.status != NotInit && p.tablet.status != Ready ==> Led(p))
  }

  /** Someone is loading or unloading. */
  ghost predicate Led(p: System) {
    exists t :: t in p.threads && !p.threads[t].Using?
  }

  lemma KeptIsSound(p: System, e: Event)
    requires Kept(p) && Enabled(p, e)
    ensures Sound(p, e)
  {
  }

  lemma AddOne(threads: map<nat, Phase>, t: nat, phase: Phase)
    ensures var more := threads[t := phase];
            && more.Keys == threads.Keys + {t}
            && |more.Keys| == |threads.Keys| + if t in threads then 0 else 1
  {
    assert threads[t := phase].Keys == threads.Keys + {t};
    if t in threads { assert threads.Keys + {t} == threads.Keys; }
  }

  lemma LoseOne(threads: map<nat, Phase>, t: nat)
    requires t in threads
    ensures (threads - {t}).Keys == threads.Keys - {t} && |(threads - {t}).Keys| == |threads.Keys| - 1
  {
    assert (threads - {t}).Keys == threads.Keys - {t};
  }

  /** An operation takes a reference. */
  lemma KeptByUser(p: System, y: Tablet, t: nat, kind: Kind)
    requires Kept(p) && t !in p.threads && y == p.tablet.(refs := p.tablet.refs + 1, compacting := y.compacting)
    requires p.tablet.status == Ready || p.tablet.status == Unloading
    ensures Kept(Put(p, y, t, Using(kind)))
  {
    AddOne(p.threads, t, Using(kind));
    var p' := Put(p, y, t, Using(kind));
    if Led(p) {
      var u :| u in p.threads && !p.threads[u].Using?;
      assert u in p'.threads && !p'.threads[u].Using?;
    }
  }

  /** A load or an unload begins. */
  lemma KeptByBeginning(p: System, y: Tablet, t: nat, phase: Phase)
    requires Kept(p) && t !in p.threads
    requires || (p.tablet.status == NotInit && phase == Opening)
             || (p.tablet.status == Ready && phase == Shutting)
    requires y == p.tablet.(refs := p.tablet.refs + 1, tries := y.tries, status := y.status) && Fits(y, phase)
    ensures Kept(Put(p, y, t, phase))
  {
    AddOne(p.threads, t, phase);
    var p' := Put(p, y, t, phase);
    assert t in p'.threads && !p'.threads[t].Using?;
  }

  /** The loading or unloading thread takes its next step. */
  lemma KeptByLeader(p: System, y: Tablet, t: nat, phase: Phase)
    requires Kept(p) && t in p.threads && !p.threads[t].Using? && !phase.Using? && y.refs == p.tablet.refs
    requires Fits(y, phase) && y.status != NotInit && y.status != Ready
    requires forall u :: u in p.threads && u != t ==> Fits(y, p.threads[u])
    requires Alone(phase) ==> p.threads.Keys == {t}
    ensures Kept(Put(p, y, t, phase))
  {
    AddOne(p.threads, t, phase);
    var p' := Put(p, y, t, phase);
    assert p'.threads.Keys == p.threads.Keys;
    assert t in p'.threads && !p'.threads[t].Using?;
  }

  lemma KeptByLeave(p: System, e: Event)
    requires Kept(p) && Enabled(p, e) && e.Leave?
    ensures Kept(Apply(p, e))
  {
    LoseOne(p.threads, e.t);
    var p' := Apply(p, e);
    if Led(p) {
      var u :| u in p.threads && !p.threads[u].Using?;
      assert u in p'.threads && !p'.threads[u].Using?;
    }
  }

  /** The last one out: a load or an unload ends. */
  lemma KeptByEnd(p: System, e: Event)
    requires Kept(p) && Enabled(p, e) && (e.LoadEnd? || e.UnloadEnd?)
    ensures Kept(Apply(p, e))
  {
    LoseOne(p.threads, e.t);
  }

  lemma SoleHolder(p: System, t: nat)
    requires p.threads.Keys != {} && |p.threads.Keys| <= 1 && t in p.threads
    ensures p.threads.Keys == {t}
  {
    var rest := p.threads.Keys - {t};
    assert |rest| == 0;
  }

  lemma KeptByUnloader(p: System, e: Event)
    requires Kept(p) && Enabled(p, e) && (e.Open? || e.Shutdown? || e.Check? || e.StopWriter? || e.FreeDb?)
    ensures Kept(Apply(p, e))
  {
    var p' := Apply(p, e);
    if e.Check? && p.tablet.refs <= 1 { SoleHolder(p, e.t); }
    if !(e.Check? && p.tablet.refs > 1) {
      KeptByLeader(p, p'.tablet, e.t, p'.threads[e.t]);
    }
  }

  lemma KeptByStep(p: System, e: Event)
    requires Kept(p) && Enabled(p, e)
    ensures Kept(Apply(p, e))
  {
    match e {
      case Enter(t, kind, limit) =>
        if Admits(p.tablet, kind, limit) { KeptByUser(p, EnterStep(p.tablet, kind, limit).0, t, kind); }
      case Load(t) =>
        if p.tablet.status == NotInit { KeptByBeginning(p, LoadStep(p.tablet).0, t, Opening); }
      case Unload(t) =>
        if p.tablet.status == Ready { KeptByBeginning(p, UnloadStep(p.tablet).0, t, Shutting); }
      case Use(_) =>
      case Leave(_) => KeptByLeave(p, e);
      case LoadEnd(_) => KeptByEnd(p, e);
      case UnloadEnd(_) => KeptByEnd(p, e);
      case _ => KeptByUnloader(p, e);
    }
  }

  // ---------- runs ----------

  ghost predicate Run(log: seq<Event>, states: seq<System>) {
    && |states| == |log| + 1 && states[0] == Start
    && forall i :: 0 <= i < |log| ==> Enabled(states[i], log[i]) && states[i + 1] == Apply(states[i], log[i])
  }

  lemma {:induction false} AlwaysKept(log: seq<Event>, states: seq<System>, n: nat)
    requires Run(log, states) && n <= |log|
    ensures Kept(states[n])
  {
    if n > 0 {
      AlwaysKept(log, states, n - 1);
      KeptByStep(states[n - 1], log[n - 1]);
    }
  }

  /** In every state of every run the count is the number of holders, and a tablet that is
      not loaded has none and no database. */
  lemma CountsHolders(log: seq<Event>, states: seq<System>, n: nat)
    requires Run(log, states) && n <= |log|
    ensures states[n].tablet.refs == |states[n].threads.Keys|
    ensures states[n].tablet.status == NotInit ==> states[n].tablet.refs == 0 && !states[n].tablet.db
  {
    AlwaysKept(log, states, n);
  }

  /** No holder uses a freed database or writer, and both are freed by a thread that is
      the only holder. */
  lemma NeverFreedInUse(log: seq<Event>, states: seq<System>, n: nat)
    requires Run(log, states) && n < |log|
    ensures Sound(states[n], log[n])
    ensures forall t :: t in states[n].threads && states[n].threads[t].Using? ==>
              states[n].tablet.db && states[n].tablet.writer
  {
    AlwaysKept(log, states, n);
    KeptIsSound(states[n], log[n]);
  }

  lemma NobodyEnters(p: System, e: Event)
    requires Kept(p) && Enabled(p, e) && p.tablet.status == Unloading2
    ensures Apply(p, e).threads.Keys <= p.threads.Keys
  {
    var p' := Apply(p, e);
    if e.t in p'.threads && e.t in p.threads {
      AddOne(p.threads, e.t, p'.threads[e.t]);
    }
  }

  /** Once Unload waits, nobody new gets in, and the holders it waits for only leave:
      until it is done, the count never grows. */
  lemma {:induction false} WaitingDrains(log: seq<Event>, states: seq<System>, m: nat, n: nat)
    requires Run(log, states) && m <= n <= |log|
    requires forall i :: m <= i <= n ==> states[i].tablet.status == Unloading2
    ensures states[n].threads.Keys <= states[m].threads.Keys
    ensures states[n].tablet.refs <= states[m].tablet.refs
  {
    if m < n {
      WaitingDrains(log, states, m, n - 1);
      AlwaysKept(log, states, n - 1);
      NobodyEnters(states[n - 1], log[n - 1]);
    }
    FewerHolders(log, states, m, n);
  }

  lemma FewerHolders(log: seq<Event>, states: seq<System>, m: nat, n: nat)
    requires Run(log, states) && m <= |log| && n <= |log| && states[n].threads.Keys <= states[m].threads.Keys
    ensures states[n].tablet.refs <= states[m].tablet.refs
  {
    CountsHolders(log, states, m);
    CountsHolders(log, states, n);
    var a, b := states[n].threads.Keys, states[m].threads.Keys;
    assert b == a + (b - a);
  }

  /** At most one thread loads or unloads at a time. */
  lemma OneLeader(log: seq<Event>, states: seq<System>, n: nat, t: nat, u: nat)
    requires Run(log, states) && n <= |log|
    requires t in states[n].threads && u in states[n].threads
    requires !states[n].threads[t].Using? && !states[n].threads[u].Using?
    ensures t == u
  {
    AlwaysKept(log, states, n);
  }

  // ---------- compactions and unload tries ----------

  /** The tablet is marked as compacting exactly while a compaction holds it. */
  ghost predicate Exclusive(p: System) {
    && (p.tablet.compacting <==> exists t :: In(p, t, Using(Compact)))
    && (forall t, u :: In(p, t, Using(Compact)) && In(p, u, Using(Compact)) ==> t == u)
  }

  lemma ExclusiveByStep(p: System, e: Event)
    requires Exclusive(p) && Enabled(p, e)
    ensures Exclusive(Apply(p, e))
  {
    var p' := Apply(p, e);
    assert forall t :: t != e.t ==> (In(p', t, Using(Compact)) <==> In(p, t, Using(Compact)));
    if e.Leave? && p.threads[e.t] == Using(Compact) {
      assert In(p, e.t, Using(Compact)) && !In(p', e.t, Using(Compact));
    } else if e.Enter? && e.kind == Compact && Admits(p.tablet, Compact, e.unloadLimit) {
      assert In(p', e.t, Using(Compact));
    } else {
      assert p'.tablet.compacting == p.tablet.compacting;
      assert In(p', e.t, Using(Compact)) <==> In(p, e.t, Using(Compact));
      if t :| In(p, t, Using(Compact)) { assert In(p', t, Using(Compact)); }
    }
  }

  /** Never two compactions at once, and no split begins during one. */
  lemma {:induction false} OneCompaction(log: seq<Event>, states: seq<System>, n: nat)
    requires Run(log, states) && n <= |log|
    ensures Exclusive(states[n])
    ensures n < |log| && log[n].Enter? && log[n].kind == Split && log[n].t in states[n + 1].threads ==>
              !exists t :: In(states[n], t, Using(Compact))
  {
    if n > 0 {
      OneCompaction(log, states, n - 1);
      ExclusiveByStep(states[n - 1], log[n - 1]);
    } else {
      assert forall t :: t !in states[0].threads;
    }
  }

  /** How often Unload has been tried since the tablet was last loaded. */
  function TriesSince(log: seq<Event>, states: seq<System>, n: nat): nat
    requires n <= |log| && n <= |states|
  {
    if n == 0 then 0
    else if log[n - 1].LoadEnd? && In(states[n - 1], log[n - 1].t, Opened) then 0
    else TriesSince(log, states, n - 1) + if log[n - 1].Unload? then 1 else 0
  }

  /** Once Unload has been tried often enough, reads, writes and scans are refused until the
      tablet is loaded again. */
  lemma {:induction false} UrgentRefuses(log: seq<Event>, states: seq<System>, n: nat)
    requires Run(log, states) && n <= |log|
    ensures states[n].tablet.tries == TriesSince(log, states, n)
    ensures n < |log| && log[n].Enter? && log[n].kind == Client && TriesSince(log, states, n) >= log[n].unloadLimit ==>
              states[n + 1] == states[n]
  {
    if n > 0 {
      UrgentRefuses(log, states, n - 1);
      assert states[n] == Apply(states[n - 1], log[n - 1]);
    }
  }
}

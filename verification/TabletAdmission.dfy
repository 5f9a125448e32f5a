/** Exactly when a tablet lets an operation, a load or an unload in, told by what happened
    before: loads that opened the database, unloads that were tried, unloads that went on to
    wait for the references. */
module TabletAdmission {
  import opened TabletLifecycle
  import opened TabletLifecycleRuns

  // ---------- what happened before ----------

  /** The last attempt to open the database succeeded. */
  predicate LastOpenOk(log: seq<Event>, n: nat)
    requires n <= |log|
  {
    n > 0 && if log[n - 1].Open? then log[n - 1].ok else LastOpenOk(log, n - 1)
  }

  /** A load that opened the database ends. */
  predicate LoadsAt(log: seq<Event>, k: nat)
    requires k < |log|
  {
    log[k].LoadEnd? && LastOpenOk(log, k)
  }

  /** An unload ends, or a load that could not open the database. */
  predicate EndsAt(log: seq<Event>, k: nat)
    requires k < |log|
  {
    log[k].UnloadEnd? || (log[k].LoadEnd? && !LastOpenOk(log, k))
  }

  /** Loaded at `k`, and no unload since has gone on to wait for the references. */
  ghost predicate ServesSince(log: seq<Event>, k: nat, n: nat)
    requires n <= |log|
  {
    k < n && LoadsAt(log, k) && forall i :: k < i < n ==> !log[i].Shutdown?
  }

  ghost predicate Serves(log: seq<Event>, n: nat)
    requires n <= |log|
  {
    exists k: nat :: ServesSince(log, k, n)
  }

  /** Loaded at `k`, and no unload was tried since. */
  ghost predicate ReadySince(log: seq<Event>, k: nat, n: nat)
    requires n <= |log|
  {
    k < n && LoadsAt(log, k) && forall i :: k < i < n ==> !log[i].Unload?
  }

  ghost predicate IsReady(log: seq<Event>, n: nat)
    requires n <= |log|
  {
    exists k: nat :: ReadySince(log, k, n)
  }

  /** Nobody has called Load since the tablet was created or last unloaded. */
  ghost predicate NoLoadSince(log: seq<Event>, from: nat, n: nat)
    requires n <= |log|
  {
    from <= n && (from > 0 ==> EndsAt(log, from - 1)) && forall i :: from <= i < n ==> !log[i].Load?
  }

  ghost predicate IsUnloaded(log: seq<Event>, n: nat)
    requires n <= |log|
  {
    exists from: nat :: NoLoadSince(log, from, n)
  }

  /** How many unloads were tried from `a` to `b`. */
  function Unloads(log: seq<Event>, a: nat, b: nat): nat
    requires b <= |log|
  {
    if b <= a then 0 else Unloads(log, a, b - 1) + if log[b - 1].Unload? then 1 else 0
  }

  lemma ServesNext(log: seq<Event>, n: nat)
    requires n < |log|
    ensures Serves(log, n + 1) <==> LoadsAt(log, n) || (Serves(log, n) && !log[n].Shutdown?)
  {
    if Serves(log, n + 1) {
      var k: nat :| ServesSince(log, k, n + 1);
      assert k == n || ServesSince(log, k, n);
    }
    if LoadsAt(log, n) { assert ServesSince(log, n, n + 1); }
    if Serves(log, n) && !log[n].Shutdown? {
      var k: nat :| ServesSince(log, k, n);
      assert ServesSince(log, k, n + 1);
    }
  }

  lemma ReadyNext(log: seq<Event>, n: nat)
    requires n < |log|
    ensures IsReady(log, n + 1) <==> LoadsAt(log, n) || (IsReady(log, n) && !log[n].Unload?)
  {
    if IsReady(log, n + 1) {
      var k: nat :| ReadySince(log, k, n + 1);
      assert k == n || ReadySince(log, k, n);
    }
    if LoadsAt(log, n) { assert ReadySince(log, n, n + 1); }
    if IsReady(log, n) && !log[n].Unload? {
      var k: nat :| ReadySince(log, k, n);
      assert ReadySince(log, k, n + 1);
    }
  }

  lemma UnloadedNext(log: seq<Event>, n: nat)
    requires n < |log|
    ensures IsUnloaded(log, n + 1) <==> EndsAt(log, n) || (IsUnloaded(log, n) && !log[n].Load?)
  {
    if IsUnloaded(log, n + 1) {
      var from: nat :| NoLoadSince(log, from, n + 1);
      assert from == n + 1 || NoLoadSince(log, from, n);
    }
    if EndsAt(log, n) { assert NoLoadSince(log, n + 1, n + 1); }
    if IsUnloaded(log, n) && !log[n].Load? {
      var from: nat :| NoLoadSince(log, from, n);
      assert NoLoadSince(log, from, n + 1);
    }
  }

  // ---------- what the status remembers ----------

  predicate Open(p: System) {
    p.tablet.status == Ready || p.tablet.status == Unloading
  }

  lemma StatusStep(p: System, e: Event)
    requires Kept(p) && Enabled(p, e)
    ensures var q, loads := Apply(p, e), e.LoadEnd? && In(p, e.t, Opened);
            var ends := e.UnloadEnd? || (e.LoadEnd? && !In(p, e.t, Opened));
            && (Open(q) <==> loads || (Open(p) && !e.Shutdown?))
            && (q.tablet.status == Ready <==> loads || (p.tablet.status == Ready && !e.Unload?))
            && (q.tablet.status == NotInit <==> ends || (p.tablet.status == NotInit && !e.Load?))
  {
  }

  /** Between the opening of the database and the end of the load nothing else is opened. */
  lemma {:induction false} OpenedMeans(log: seq<Event>, states: seq<System>, n: nat, t: nat)
    requires Run(log, states) && n <= |log|
    ensures In(states[n], t, Opened) ==> LastOpenOk(log, n)
    ensures In(states[n], t, OpenFailed) ==> !LastOpenOk(log, n)
  {
    if n > 0 {
      OpenedMeans(log, states, n - 1, t);
      AlwaysKept(log, states, n - 1);
      OpenedBefore(states[n - 1], log[n - 1], t);
    }
  }

  lemma OpenedBefore(p: System, e: Event, t: nat)
    requires Kept(p) && Enabled(p, e)
    ensures In(Apply(p, e), t, Opened) ==> e == Event.Open(t, true) || (In(p, t, Opened) && !e.Open?)
    ensures In(Apply(p, e), t, OpenFailed) ==> e == Event.Open(t, false) || (In(p, t, OpenFailed) && !e.Open?)
  {
  }

  /** The status in every state of every run, by what happened before. */
  lemma {:induction false} StatusMeans(log: seq<Event>, states: seq<System>, n: nat)
    requires Run(log, states) && n <= |log|
    ensures Open(states[n]) <==> Serves(log, n)
    ensures states[n].tablet.status == Ready <==> IsReady(log, n)
    ensures states[n].tablet.status == NotInit <==> IsUnloaded(log, n)
  {
    if n == 0 {
      assert NoLoadSince(log, 0, 0);
    } else {
      var m, e := n - 1, log[n - 1];
      StatusMeans(log, states, m);
      AlwaysKept(log, states, m);
      StatusStep(states[m], e);
      if e.LoadEnd? { OpenedMeans(log, states, m, e.t); }
      ServesNext(log, m);
      ReadyNext(log, m);
      UnloadedNext(log, m);
    }
  }

  lemma TriesStep(p: System, e: Event)
    requires Kept(p) && Enabled(p, e)
    ensures e.LoadEnd? && In(p, e.t, Opened) ==> Apply(p, e).tablet.tries == 0
    ensures Open(p) ==> Apply(p, e).tablet.tries == p.tablet.tries + if e.Unload? then 1 else 0
  {
  }

  lemma TriesAfter(log: seq<Event>, states: seq<System>, m: nat)
    requires Run(log, states) && m < |log|
    ensures log[m].LoadEnd? && LastOpenOk(log, m) ==> states[m + 1].tablet.tries == 0
    ensures Serves(log, m) ==> states[m + 1].tablet.tries == states[m].tablet.tries + if log[m].Unload? then 1 else 0
  {
    AlwaysKept(log, states, m);
    TriesStep(states[m], log[m]);
    StatusMeans(log, states, m);
    if log[m].LoadEnd? { OpenedMeans(log, states, m, log[m].t); }
  }

  /** While it serves, the tablet counts the unloads tried since the load. */
  lemma {:induction false} ServedSince(log: seq<Event>, states: seq<System>, k: nat, n: nat)
    requires Run(log, states) && n <= |log| && ServesSince(log, k, n)
    ensures states[n].tablet.tries == Unloads(log, k + 1, n)
    decreases n
  {
    TriesAfter(log, states, n - 1);
    if k < n - 1 {
      assert ServesSince(log, k, n - 1);
      ServedSince(log, states, k, n - 1);
    }
  }

  // ---------- who gets in ----------

  ghost predicate GetsIn(log: seq<Event>, states: seq<System>, n: nat)
    requires n < |log| && n + 1 < |states|
  {
    log[n].t in states[n + 1].threads
  }

  /** A read, write or scan gets a reference if and only if the last load succeeded, no unload
      since then has gone on to wait for the references, and fewer unloads than the limit were
      tried since. */
  lemma ClientGetsInIff(log: seq<Event>, states: seq<System>, n: nat)
    requires Run(log, states) && n < |log| && log[n].Enter? && log[n].kind == Client
    ensures GetsIn(log, states, n) <==>
              exists k: nat :: ServesSince(log, k, n) && Unloads(log, k + 1, n) < log[n].unloadLimit
  {
    StatusMeans(log, states, n);
    assert states[n + 1] == Apply(states[n], log[n]);
    forall k: nat | ServesSince(log, k, n) ensures states[n].tablet.tries == Unloads(log, k + 1, n) {
      ServedSince(log, states, k, n);
    }
  }

  /** A compaction got in and has not left. */
  ghost predicate CompactsSince(log: seq<Event>, states: seq<System>, i: nat, n: nat)
    requires n <= |log| && n < |states|
  {
    && i < n && log[i].Enter? && log[i].kind == Compact && GetsIn(log, states, i)
    && forall j :: i < j < n ==> log[j] != Leave(log[i].t)
  }

  lemma CompactingStep(p: System, e: Event, t: nat)
    requires Enabled(p, e)
    ensures In(Apply(p, e), t, Using(Compact)) <==>
              || (In(p, t, Using(Compact)) && e != Leave(t))
              || (e.Enter? && e.t == t && e.kind == Compact && t in Apply(p, e).threads)
  {
  }

  lemma {:induction false} CompactingMeans(log: seq<Event>, states: seq<System>, n: nat, t: nat)
    requires Run(log, states) && n <= |log|
    ensures In(states[n], t, Using(Compact)) <==> exists i: nat :: CompactsSince(log, states, i, n) && log[i].t == t
  {
    if n > 0 {
      var m := n - 1;
      CompactingMeans(log, states, m, t);
      CompactingStep(states[m], log[m], t);
      assert states[n] == Apply(states[m], log[m]);
      if In(states[n], t, Using(Compact)) {
        if In(states[m], t, Using(Compact)) && log[m] != Leave(t) {
          var i: nat :| CompactsSince(log, states, i, m) && log[i].t == t;
          assert CompactsSince(log, states, i, n);
        } else {
          assert CompactsSince(log, states, m, n);
        }
      }
      if i: nat :| CompactsSince(log, states, i, n) && log[i].t == t {
        assert i == m || CompactsSince(log, states, i, m);
      }
    }
  }

  /** Any other operation gets one if and only if the last load succeeded and no unload was
      tried since; a split or a compaction needs besides that no compaction is under way. */
  lemma OtherGetsInIff(log: seq<Event>, states: seq<System>, n: nat)
    requires Run(log, states) && n < |log| && log[n].Enter? && log[n].kind != Client
    ensures GetsIn(log, states, n) <==>
              IsReady(log, n) && (log[n].kind == Plain || !exists i: nat :: CompactsSince(log, states, i, n))
  {
    StatusMeans(log, states, n);
    OneCompaction(log, states, n);
    assert states[n + 1] == Apply(states[n], log[n]);
    if i: nat :| CompactsSince(log, states, i, n) {
      CompactingMeans(log, states, n, log[i].t);
    }
    if t :| In(states[n], t, Using(Compact)) {
      CompactingMeans(log, states, n, t);
    }
  }

  /** A load begins if and only if nobody has called Load since the tablet was created or last
      unloaded, and reports success at once if and only if the tablet is ready; an unload
      begins if and only if the tablet is loaded and this is the first one since. */
  lemma LoadBeginsIff(log: seq<Event>, states: seq<System>, n: nat)
    requires Run(log, states) && n < |log|
    ensures log[n].Load? ==> (GetsIn(log, states, n) <==> IsUnloaded(log, n))
    ensures log[n].Load? ==> (LoadStep(states[n].tablet).1 == Loaded <==> IsReady(log, n))
    ensures log[n].Unload? ==> (GetsIn(log, states, n) <==> IsReady(log, n))
  {
    StatusMeans(log, states, n);
    assert states[n + 1] == Apply(states[n], log[n]);
  }

  /** Unload stops waiting as soon as it looks and nobody else holds a reference. */
  lemma WaitEndsIff(log: seq<Event>, states: seq<System>, n: nat)
    requires Run(log, states) && n < |log| && log[n].Check?
    ensures In(states[n + 1], log[n].t, Draining) <==> states[n].threads.Keys == {log[n].t}
  {
    AlwaysKept(log, states, n);
    assert states[n + 1] == Apply(states[n], log[n]);
    if states[n].tablet.refs <= 1 { SoleHolder(states[n], log[n].t); }
  }
}

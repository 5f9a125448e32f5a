/** How long a scan session lives: which context a request reaches, and what ends it, told by
    the requests, replies and evictions before. */
module ScanSessionLife {
  import opened Collections
  import opened ScanSessions
  import opened ScanSessionRuns
  import opened ScanSessionOrder

  /** The step ends a session of this id: its owner, done with a reply or unable to start,
      deletes the context. */
  predicate EndsOf(p: System, e: Event, session: int) {
    && (e.Finish? || e.Abort?) && e.t in p.threads && Valid(p.tb, p.threads[e.t].context)
    && p.tb.contexts[p.threads[e.t].context].session == session && EndsSession(p, e, p.threads[e.t].context)
  }

  /** The step makes a context for the session. */
  predicate Makes(p: System, e: Event, session: int) {
    e.Arrive? && e.session == session && !e.partOfSession && session !in p.tb.cache
  }

  lemma EraseCache(tb: Table, session: int)
    requires CacheValid(tb)
    ensures Erase(tb, session).cache == tb.cache - {session}
  {
  }

  lemma FinishCache(tb: Table, c: nat)
    requires Valid(tb, c) && CacheValid(tb) && tb.contexts[c].jobs != []
    ensures var x := tb.contexts[c];
            FinishStep(tb, c).0.cache == if x.complete || !x.ok then tb.cache - {x.session} else tb.cache
  {
    DeleteData(Update(tb, c, tb.contexts[c].(jobs := tb.contexts[c].jobs[1..])), c);
  }

  /** What a step does to the cache. */
  lemma CacheStep(p: System, e: Event, s: int)
    requires Kept(p) && Enabled(p, e)
    ensures var q := Apply(p, e).0;
            && (s in q.tb.cache <==> Makes(p, e, s) || (s in p.tb.cache && e != Evict(s) && !EndsOf(p, e, s)))
            && (s in q.tb.cache ==> q.tb.cache[s] == if Makes(p, e, s) then |p.tb.contexts| else p.tb.cache[s])
  {
    KeptIsSound(p, e);
    match e {
      case Finish(t) => FinishCache(p.tb, p.threads[t].context);
      case Abort(t) => DeleteData(p.tb, p.threads[t].context);
      case Evict(session) => EraseCache(p.tb, session);
      case _ =>
    }
  }

  /** The request at `i` made the session's context, and since then it was not evicted and no
      context of the session was deleted. */
  ghost predicate LivesSince(log: seq<Event>, i: nat, n: nat, s: int)
    requires n <= |log|
  {
    && i < n && Makes(Replay(log[..i]), log[i], s)
    && forall j :: i < j < n ==> log[j] != Evict(s) && !EndsOf(Replay(log[..j]), log[j], s)
  }

  lemma {:induction false} PrefixOf(log: seq<Event>, n: nat)
    requires Run(log) && n <= |log|
    ensures Run(log[..n]) && (n < |log| ==> Enabled(Replay(log[..n]), log[n]))
    decreases |log| - n
  {
    if n == |log| {
      assert log[..n] == log;
    } else {
      PrefixOf(log, n + 1);
      assert log[..n + 1][..n] == log[..n];
    }
  }

  lemma ReplayNext(log: seq<Event>, n: nat)
    requires n < |log|
    ensures Replay(log[..n + 1]) == Apply(Replay(log[..n]), log[n]).0
  {
    assert log[..n + 1][..n] == log[..n];
  }

  ghost predicate Reaches(log: seq<Event>, n: nat, tb: Table, s: int)
    requires n <= |log|
  {
    && (s in tb.cache <==> exists i: nat :: LivesSince(log, i, n, s))
    && (forall i: nat :: LivesSince(log, i, n, s) ==>
          s in tb.cache && tb.cache[s] == |Replay(log[..i]).tb.contexts|)
  }

  lemma ReachesNext(log: seq<Event>, m: nat, s: int, p: System, q: System)
    requires m < |log| && p == Replay(log[..m]) && Reaches(log, m, p.tb, s)
    requires s in q.tb.cache <==> Makes(p, log[m], s) || (s in p.tb.cache && log[m] != Evict(s) && !EndsOf(p, log[m], s))
    requires s in q.tb.cache ==> q.tb.cache[s] == if Makes(p, log[m], s) then |p.tb.contexts| else p.tb.cache[s]
    ensures Reaches(log, m + 1, q.tb, s)
  {
    LivesNext(log, m, s);
    forall i: nat | LivesSince(log, i, m + 1, s)
      ensures s in q.tb.cache && q.tb.cache[s] == |Replay(log[..i]).tb.contexts|
    {
      assert LivesOn(log, i, m, s);
    }
    if s in q.tb.cache {
      if Makes(p, log[m], s) {
        assert LivesOn(log, m, m, s);
        assert LivesSince(log, m, m + 1, s);
      } else {
        var i: nat :| LivesSince(log, i, m, s);
        assert LivesOn(log, i, m, s);
        assert LivesSince(log, i, m + 1, s);
      }
    }
  }

  /** A request reaches a context of its session if and only if one was made, and since then it
      was neither evicted nor was a context of the session deleted; it is the one made last. */
  lemma {:induction false} ReachesIff(log: seq<Event>, n: nat, s: int)
    requires Run(log) && n <= |log|
    ensures Reaches(log, n, Replay(log[..n]).tb, s)
    decreases n
  {
    if n > 0 {
      var m := n - 1;
      ReachesIff(log, m, s);
      PrefixOf(log, m);
      AlwaysKept(log[..m]);
      ReplayNext(log, m);
      CacheStep(Replay(log[..m]), log[m], s);
      ReachesNext(log, m, s, Replay(log[..m]), Replay(log[..n]));
    }
  }

  ghost predicate LivesOn(log: seq<Event>, i: nat, m: nat, s: int)
    requires m < |log|
  {
    || (i == m && Makes(Replay(log[..m]), log[m], s))
    || (LivesSince(log, i, m, s) && log[m] != Evict(s) && !EndsOf(Replay(log[..m]), log[m], s))
  }

  lemma LivesNext(log: seq<Event>, m: nat, s: int)
    requires m < |log|
    ensures forall i: nat :: LivesSince(log, i, m + 1, s) <==> LivesOn(log, i, m, s)
  {
    forall i: nat ensures LivesSince(log, i, m + 1, s) <==> LivesOn(log, i, m, s) {
      if i == m {
        assert LivesSince(log, i, m + 1, s) <==> Makes(Replay(log[..m]), log[m], s);
      } else if LivesOn(log, i, m, s) {
        forall j | i < j < m + 1 ensures log[j] != Evict(s) && !EndsOf(Replay(log[..j]), log[j], s) {
          assert j < m || j == m;
        }
      }
    }
  }

  // ---------- what ends a session ----------

  /** The last reply of thread `t` said that the scan is complete or failed. */
  predicate LastReplyEnds(log: seq<Event>, n: nat, t: nat)
    requires n <= |log|
  {
    n > 0 &&
    if log[n - 1].Serve? && log[n - 1].t == t then log[n - 1].complete || !log[n - 1].ok else LastReplyEnds(log, n - 1, t)
  }

  predicate Ended(p: System, t: nat) {
    t in p.threads && Valid(p.tb, p.threads[t].context) &&
    var x := p.tb.contexts[p.threads[t].context]; x.complete || !x.ok
  }

  /** Nobody but its owner changes what the last reply said. */
  lemma EndedStep(p: System, e: Event, t: nat)
    requires Kept(p) && Enabled(p, e) && In(Apply(p, e).0, t, Served)
    ensures e.Serve? && e.t == t ==> (Ended(Apply(p, e).0, t) <==> e.complete || !e.ok)
    ensures !(e.Serve? && e.t == t) ==> In(p, t, Served) && (Ended(Apply(p, e).0, t) <==> Ended(p, t))
  {
    KeptIsSound(p, e);
    match e {
      case Finish(u) => FinishOutcome(p.tb, p.threads[u].context);
      case Abort(u) => DeleteOutcome(p.tb, p.threads[u].context);
      case Evict(session) => EraseOutcome(p.tb, session);
      case _ =>
    }
  }

  ghost predicate SameOutcome(a: Table, b: Table) {
    |b.contexts| == |a.contexts| && forall d :: 0 <= d < |a.contexts| ==>
      b.contexts[d].complete == a.contexts[d].complete && b.contexts[d].ok == a.contexts[d].ok
  }

  lemma EraseOutcome(tb: Table, session: int)
    requires CacheValid(tb)
    ensures SameOutcome(tb, Erase(tb, session))
  {
  }

  lemma DeleteOutcome(tb: Table, c: nat)
    requires Valid(tb, c) && CacheValid(tb)
    ensures SameOutcome(tb, DeleteStep(tb, c).0)
  {
    var x := tb.contexts[c];
    EraseOutcome(Unref(Update(tb, c, x.(jobs := [], handle := false)), c), x.session);
  }

  lemma FinishOutcome(tb: Table, c: nat)
    requires Valid(tb, c) && CacheValid(tb) && tb.contexts[c].jobs != []
    ensures SameOutcome(tb, FinishStep(tb, c).0)
  {
    DeleteOutcome(Update(tb, c, tb.contexts[c].(jobs := tb.contexts[c].jobs[1..])), c);
  }

  lemma {:induction false} ReplyDecides(log: seq<Event>, n: nat, t: nat)
    requires Run(log) && n <= |log| && In(Replay(log[..n]), t, Served)
    ensures Ended(Replay(log[..n]), t) <==> LastReplyEnds(log, n, t)
    decreases n
  {
    var m := n - 1;
    PrefixOf(log, m);
    AlwaysKept(log[..m]);
    ReplayNext(log, m);
    EndedStep(Replay(log[..m]), log[m], t);
    if !(log[m].Serve? && log[m].t == t) { ReplyDecides(log, m, t); }
  }

  /** After a reply the owner ends the session exactly if that reply said that the scan is
      complete or failed; otherwise it keeps serving exactly if further requests wait. */
  lemma FinishDecides(log: seq<Event>, n: nat)
    requires Run(log) && n < |log| && log[n].Finish?
    ensures var p, t := Replay(log[..n]), log[n].t;
            && t in p.threads && Valid(p.tb, p.threads[t].context)
            && var c := p.threads[t].context;
            && (EndsSession(p, log[n], c) <==> LastReplyEnds(log, n, t))
            && (t in Replay(log[..n + 1]).threads <==> !LastReplyEnds(log, n, t) && |p.tb.contexts[c].jobs| > 1)
  {
    PrefixOf(log, n);
    AlwaysKept(log[..n]);
    KeptIsSound(Replay(log[..n]), log[n]);
    ReplayNext(log, n);
    ReplyDecides(log, n, log[n].t);
  }

  /** A scan that cannot be started is not served: its owner can only abort. */
  lemma FailedStartAborts(p: System, t: nat, ok: bool)
    requires Kept(p) && Enabled(p, Start(t, ok)) && !p.tb.contexts[p.threads[t].context].started
    ensures var q := Apply(p, Start(t, ok)).0;
            (Enabled(q, Take(t)) <==> ok) && (Enabled(q, Abort(t)) <==> !ok)
  {
    KeptIsSound(p, Start(t, ok));
  }
}

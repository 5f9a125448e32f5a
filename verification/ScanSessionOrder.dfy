/** The replies of one scan session: in the order the requests arrived, numbered without
    gaps. */
module ScanSessionOrder {
  import opened Collections
  import opened ScanSessions
  import opened ScanSessionRuns

  /** A closure run by the serving loop, with the results_id of its reply. */
  datatype Reply = Reply(job: nat, resultsId: nat)

  predicate OwnerOf(p: System, t: nat, c: nat) {
    t in p.threads && p.threads[t].context == c && Valid(p.tb, c)
  }

  function RepliesBy(p: System, e: Event, c: nat): seq<Reply> {
    if e.Serve? && OwnerOf(p, e.t, c) && p.threads[e.t].phase.Serving? then
      [Reply(p.threads[e.t].phase.job, p.tb.contexts[c].dataIdx)]
    else []
  }

  /** The closures run because the context goes away. */
  function FlushedBy(p: System, e: Event, c: nat): seq<nat> {
    if (e.Finish? || e.Abort?) && OwnerOf(p, e.t, c) then Apply(p, e).1 else []
  }

  function ArrivesBy(p: System, e: Event, c: nat): seq<nat> {
    if e.Arrive? && (if e.session in p.tb.cache then p.tb.cache[e.session] == c
                     else !e.partOfSession && c == |p.tb.contexts|) then [e.job]
    else []
  }

  function Replies(log: seq<Event>, c: nat): seq<Reply> {
    if log == [] then []
    else Replies(log[..|log| - 1], c) + RepliesBy(Replay(log[..|log| - 1]), log[|log| - 1], c)
  }

  function Flushed(log: seq<Event>, c: nat): seq<nat> {
    if log == [] then []
    else Flushed(log[..|log| - 1], c) + FlushedBy(Replay(log[..|log| - 1]), log[|log| - 1], c)
  }

  function Arrivals(log: seq<Event>, c: nat): seq<nat> {
    if log == [] then []
    else Arrivals(log[..|log| - 1], c) + ArrivesBy(Replay(log[..|log| - 1]), log[|log| - 1], c)
  }

  function JobsOf(replies: seq<Reply>): seq<nat> {
    seq(|replies|, i requires 0 <= i < |replies| => replies[i].job)
  }

  /** What the context still has to run; nothing before it exists. */
  ghost function Left(p: System, c: nat): seq<nat> {
    if Valid(p.tb, c) then Unserved(p, c) else []
  }

  function DataIdx(p: System, c: nat): nat {
    if Valid(p.tb, c) then p.tb.contexts[c].dataIdx else 0
  }

  /** The deleter has run on the context. */
  predicate Gone(p: System, c: nat) {
    Valid(p.tb, c) && p.tb.contexts[c].freed
  }

  // ---------- one step ----------

  /** What a step does to the jobs of a context. */
  ghost predicate Serves(p: System, e: Event, c: nat) {
    && JobsOf(RepliesBy(p, e, c)) + FlushedBy(p, e, c) + Left(Apply(p, e).0, c) == Left(p, c) + ArrivesBy(p, e, c)
    && DataIdx(Apply(p, e).0, c) == DataIdx(p, c) + |RepliesBy(p, e, c)|
  }

  lemma ServesByArrive(p: System, e: Event, c: nat)
    requires Kept(p) && Enabled(p, e) && e.Arrive?
    ensures Serves(p, e, c)
  {
    KeptIsSound(p, e);
    if e.session in p.tb.cache {
      var d, u, u' := FlowOfHit(p, e);
      assert c < |p.tb.contexts| && c != d ==> Unserved(p, c) == Unserved(Apply(p, e).0, c);
    } else if !e.partOfSession {
      FlowOfNew(p, e);
      assert c < |p.tb.contexts| ==> Unserved(p, c) == Unserved(Apply(p, e).0, c);
    }
  }

  lemma ServesByThread(p: System, e: Event, c: nat)
    requires Kept(p) && Enabled(p, e) && (e.Start? || e.Take? || e.Serve?)
    ensures Serves(p, e, c)
  {
    KeptIsSound(p, e);
    var d, u, u' := FlowOfOwner(p, e);
    assert c < |p.tb.contexts| && c != d ==> Unserved(p, c) == Unserved(Apply(p, e).0, c);
  }

  lemma EraseData(tb: Table, session: int)
    requires CacheValid(tb)
    ensures var tb' := Erase(tb, session);
            && |tb'.contexts| == |tb.contexts|
            && forall d :: 0 <= d < |tb.contexts| ==>
                 tb'.contexts[d].dataIdx == tb.contexts[d].dataIdx && tb'.contexts[d].session == tb.contexts[d].session
  {
  }

  lemma DeleteData(tb: Table, c: nat)
    requires Valid(tb, c) && CacheValid(tb)
    ensures var tb' := DeleteStep(tb, c).0;
            && |tb'.contexts| == |tb.contexts| && tb'.cache == tb.cache - {tb.contexts[c].session}
            && forall d :: 0 <= d < |tb.contexts| ==>
                 tb'.contexts[d].dataIdx == tb.contexts[d].dataIdx && tb'.contexts[d].session == tb.contexts[d].session
  {
    var x := tb.contexts[c];
    EraseData(Unref(Update(tb, c, x.(jobs := [], handle := false)), c), x.session);
  }

  lemma FinishData(tb: Table, c: nat)
    requires Valid(tb, c) && CacheValid(tb) && tb.contexts[c].jobs != []
    ensures var tb' := FinishStep(tb, c).0;
            && |tb'.contexts| == |tb.contexts|
            && forall d :: 0 <= d < |tb.contexts| ==>
                 tb'.contexts[d].dataIdx == tb.contexts[d].dataIdx && tb'.contexts[d].session == tb.contexts[d].session
  {
    DeleteData(Update(tb, c, tb.contexts[c].(jobs := tb.contexts[c].jobs[1..])), c);
  }

  lemma ServesByFinish(p: System, e: Event, c: nat)
    requires Kept(p) && Enabled(p, e) && (e.Finish? || e.Abort?)
    ensures Serves(p, e, c)
  {
    KeptIsSound(p, e);
    var d, u, u' := FlowOfFinish(p, e);
    if e.Finish? {
      FinishData(p.tb, d);
    } else {
      DeleteData(p.tb, d);
    }
    assert c < |p.tb.contexts| && c != d ==> Unserved(p, c) == Unserved(Apply(p, e).0, c);
  }

  lemma ServesByStep(p: System, e: Event, c: nat)
    requires Kept(p) && Enabled(p, e)
    ensures Serves(p, e, c)
  {
    match e {
      case Arrive(_, _, _, _) => ServesByArrive(p, e, c);
      case Evict(session) =>
        FlowOfEvict(p, e);
        EraseData(p.tb, session);
      case Finish(_) => ServesByFinish(p, e, c);
      case Abort(_) => ServesByFinish(p, e, c);
      case _ => ServesByThread(p, e, c);
    }
  }

  // ---------- a context that is gone ----------

  /** The step ends the session: a reply that completes the scan or fails, or a scan that
      could not be started. */
  predicate EndsSession(p: System, e: Event, c: nat) {
    && (e.Finish? || e.Abort?) && OwnerOf(p, e.t, c)
    && (e.Finish? ==> p.tb.contexts[c].complete || !p.tb.contexts[c].ok)
  }

  lemma FlushEnds(p: System, e: Event, c: nat)
    requires Kept(p) && Enabled(p, e)
    ensures FlushedBy(p, e, c) != [] ==> EndsSession(p, e, c)
  {
    KeptIsSound(p, e);
  }

  /** When a session ends its context is freed, also if the cache had evicted it. */
  lemma DeletedIsGone(p: System, e: Event, c: nat)
    requires Kept(p) && Enabled(p, e) && EndsSession(p, e, c)
    ensures Gone(Apply(p, e).0, c)
  {
    KeptIsSound(p, e);
    KeptByStep(p, e);
    var p' := Apply(p, e).0;
    var x := p.tb.contexts[c].(jobs := if e.Finish? then p.tb.contexts[c].jobs[1..] else p.tb.contexts[c].jobs);
    DeleteData(Update(p.tb, c, x), c);
    assert Update(p.tb, c, p.tb.contexts[c]) == p.tb;
    OwnerLeaves(p.threads, e.t);
    assert Fine(p'.tb.contexts[c], InCache(p'.tb, c), Owned(p'.threads, c));
  }

  lemma GoneIsFree(p: System, c: nat)
    requires Kept(p) && Valid(p.tb, c)
    ensures Gone(p, c) <==> !InCache(p.tb, c) && !Owned(p.threads, c)
  {
    assert Fine(p.tb.contexts[c], InCache(p.tb, c), Owned(p.threads, c));
  }

  /** Nobody reaches a freed context again. */
  lemma GoneUntouched(p: System, e: Event, c: nat)
    requires Kept(p) && Enabled(p, e) && Gone(p, c)
    ensures RepliesBy(p, e, c) == [] && FlushedBy(p, e, c) == [] && ArrivesBy(p, e, c) == []
  {
    GoneIsFree(p, c);
  }

  lemma GoneStays(p: System, e: Event, c: nat)
    requires Kept(p) && Enabled(p, e) && Gone(p, c)
    ensures Gone(Apply(p, e).0, c)
  {
    KeptIsSound(p, e);
    KeptByStep(p, e);
    GoneIsFree(p, c);
    var p' := Apply(p, e).0;
    CacheGrows(p, e);
    forall t | t in p'.threads ensures p'.threads[t].context != c {
      assert t in p.threads ==> Owned(p.threads, p.threads[t].context);
    }
    GoneIsFree(p', c);
  }

  /** The cache gains only contexts that are new. */
  lemma CacheGrows(p: System, e: Event)
    requires Kept(p) && Enabled(p, e) && Sound(p, e)
    ensures var p' := Apply(p, e).0;
            && |p'.tb.contexts| >= |p.tb.contexts|
            && (forall d :: 0 <= d < |p.tb.contexts| ==> p'.tb.contexts[d].session == p.tb.contexts[d].session)
            && (forall s :: s in p'.tb.cache ==> p'.tb.cache[s] >= |p.tb.contexts| ||
                                                 (s in p.tb.cache && p.tb.cache[s] == p'.tb.cache[s]))
  {
    match e {
      case Finish(t) => FinishData(p.tb, p.threads[t].context);
      case Abort(t) => DeleteData(p.tb, p.threads[t].context);
      case Evict(session) => EraseData(p.tb, session);
      case _ =>
    }
  }

  // ---------- the whole run ----------

  /** The replies of a context follow the order of arrival and are numbered 0, 1, 2, ...;
      then come the closures run when it went away, then those still waiting. */
  lemma {:induction false} RepliesInOrder(log: seq<Event>, c: nat)
    requires Run(log)
    ensures JobsOf(Replies(log, c)) + Flushed(log, c) + Left(Replay(log), c) == Arrivals(log, c)
    ensures |Replies(log, c)| == DataIdx(Replay(log), c)
    ensures forall k :: 0 <= k < |Replies(log, c)| ==> Replies(log, c)[k].resultsId == k
    ensures Flushed(log, c) != [] ==> Gone(Replay(log), c)
  {
    if log != [] {
      var before, e := log[..|log| - 1], log[|log| - 1];
      var p := Replay(before);
      RepliesInOrder(before, c);
      AlwaysKept(before);
      ServesByStep(p, e, c);
      if Flushed(before, c) != [] {
        GoneUntouched(p, e, c);
        GoneStays(p, e, c);
      } else if FlushedBy(p, e, c) != [] {
        FlushEnds(p, e, c);
        DeletedIsGone(p, e, c);
      }
      JoinOrder(Replies(before, c), Flushed(before, c), Left(p, c), Arrivals(before, c),
                RepliesBy(p, e, c), FlushedBy(p, e, c), Left(Apply(p, e).0, c), ArrivesBy(p, e, c));
    }
  }

  lemma JoinOrder(replies: seq<Reply>, flushed: seq<nat>, left: seq<nat>, arrivals: seq<nat>,
                  r: seq<Reply>, f: seq<nat>, left': seq<nat>, a: seq<nat>)
    requires JobsOf(replies) + flushed + left == arrivals && JobsOf(r) + f + left' == left + a
    requires flushed == [] || r == []
    ensures JobsOf(replies + r) + (flushed + f) + left' == arrivals + a
  {
    var x, y := JobsOf(replies), JobsOf(r);
    assert JobsOf(replies + r) == x + y;
    if flushed == [] {
      assert flushed + f == f && x + flushed == x;
      assert x + (y + f + left') == (x + left) + a;
    } else {
      assert y == [] && y + f == f && x + y == x;
      assert x + flushed + (f + left') == (x + flushed + left) + a;
    }
  }
}

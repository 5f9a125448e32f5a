/** Every run of the thread pool: what happens to each task, whatever the callers and the
    workers do and in whatever order. */
module ThreadPoolRuns {
  import opened ThreadPool

  /** One critical section, with what it was called with and the clock it read. */
  datatype Event =
    | Add(front: bool, now: int, task: nat)
    | Delay(now: int, delay: int, task: nat)
    | Cancel(id: nat, nonBlock: bool)
    | Work(now: int)
    | Finish(id: nat)
    | FinishNormal
    | Start(threadsNum: nat)
    | Stop
    | Join

  function Apply(p: Pool, e: Event): Pool {
    match e
    case Add(front, now, task) => AddStep(p, front, now, task)
    case Delay(now, delay, task) => DelayStep(p, now, delay, task)
    case Cancel(id, nonBlock) => CancelStep(p, id, nonBlock).0
    case Work(now) => WorkStep(p, now).0
    case Finish(id) => FinishStep(p, id)
    case FinishNormal => p
    case Start(threadsNum) => StartStep(p, threadsNum)
    case Stop => StopStep(p)
    case Join => JoinStep(p)
  }

  function Replay(log: seq<Event>): Pool {
    if log == [] then Idle else Apply(Replay(log[..|log| - 1]), log[|log| - 1])
  }

  /** The normal tasks taken and not yet finished. */
  function Busy(log: seq<Event>): int {
    if log == [] then 0
    else BusyNext(Replay(log[..|log| - 1]), Busy(log[..|log| - 1]), log[|log| - 1])
  }

  function BusyNext(p: Pool, busy: int, e: Event): int {
    busy + |NormalRun(p, e)| - One(e.FinishNormal?)
  }

  /** The threads that have ended and are not yet forgotten. */
  function Ended(log: seq<Event>): nat {
    if log == [] then 0
    else EndedNext(Replay(log[..|log| - 1]), Ended(log[..|log| - 1]), log[|log| - 1])
  }

  function EndedNext(p: Pool, ended: nat, e: Event): nat {
    if e.Join? then 0 else ended + One(e.Work? && WorkStep(p, e.now).1.Exit?)
  }

  /** A turn takes a thread that has nothing to do, a task ends only if it runs, and the
      threads are forgotten once all have ended; everything else can happen at any time. */
  predicate Enabled(p: Pool, busy: int, ended: nat, e: Event) {
    match e
    case Work(_) => |p.running| + busy + ended < p.threads
    case Finish(id) => id in p.running
    case FinishNormal => busy > 0
    case Join => p.stop && ended == p.threads
    case _ => true
  }

  predicate EnabledAfter(log: seq<Event>, e: Event) {
    Enabled(Replay(log), Busy(log), Ended(log), e)
  }

  predicate Run(log: seq<Event>) {
    log == [] || (Run(log[..|log| - 1]) && EnabledAfter(log[..|log| - 1], log[|log| - 1]))
  }

  // ---------- what a run did to a delayed task ----------

  predicate Starts(p: Pool, e: Event, id: nat) {
    e.Work? && var w := WorkStep(p, e.now).1; w.RunDelayed? && w.item.id == id
  }

  predicate Cancels(p: Pool, e: Event, id: nat) {
    e.Cancel? && e.id == id && CancelStep(p, id, e.nonBlock).1.Cancelled?
  }

  predicate Issues(p: Pool, e: Event, id: nat) {
    e.Delay? && p.lastTaskId + 1 == id
  }

  /** CancelTask, called with or without blocking, returned knowing that the id is not running. */
  predicate Settles(p: Pool, e: Event, id: nat) {
    e.Cancel? && e.id == id && var r := CancelStep(p, id, e.nonBlock).1; r.Cancelled? || r.Missed?
  }

  function Started(log: seq<Event>, id: nat): nat {
    if log == [] then 0
    else Started(log[..|log| - 1], id) + if Starts(Replay(log[..|log| - 1]), log[|log| - 1], id) then 1 else 0
  }

  function CancelledIn(log: seq<Event>, id: nat): nat {
    if log == [] then 0
    else CancelledIn(log[..|log| - 1], id) + if Cancels(Replay(log[..|log| - 1]), log[|log| - 1], id) then 1 else 0
  }

  function One(b: bool): nat {
    if b then 1 else 0
  }

  // ---------- what every state of a run keeps ----------

  ghost predicate Kept(p: Pool) {
    && Ordered(p.timeQueue)
    && (forall x :: x in p.timeQueue ==> 1 <= x.id <= p.lastTaskId && x.id !in p.running)
    && (forall x, y :: x in p.timeQueue && y in p.timeQueue && x.id == y.id ==> x == y)
    && (forall id :: id in p.latest ==> p.latest[id] in p.timeQueue && p.latest[id].id == id)
    && (forall id :: id in p.running ==> 1 <= id <= p.lastTaskId)
    && p.latest.Keys !! p.running
    && p.pendingNum == |p.queue|
  }

  lemma KeptByDelay(p: Pool, now: int, delay: int, task: nat)
    requires Kept(p)
    ensures Kept(DelayStep(p, now, delay, task))
  {
    var item := Item(p.lastTaskId + 1, now + delay * 1000, task);
    PushOrdered(p.timeQueue, item);
  }

  lemma HeadAlone(p: Pool)
    requires Kept(p) && p.timeQueue != []
    ensures var head, rest := p.timeQueue[0], p.timeQueue[1..];
            && Ordered(rest) && head in p.timeQueue
            && (forall x :: x in p.timeQueue <==> x == head || x in rest)
            && (forall x :: x in rest ==> x.id != head.id)
  {
    assert p.timeQueue == [p.timeQueue[0]] + p.timeQueue[1..];
    forall x | x in p.timeQueue[1..] ensures x.id != p.timeQueue[0].id {
      assert Sooner(p.timeQueue[0], x);
    }
  }

  lemma KeptByWork(p: Pool, now: int)
    requires Kept(p)
    ensures Kept(WorkStep(p, now).0)
  {
    if p.timeQueue != [] { HeadAlone(p); }
  }

  lemma KeptByStep(p: Pool, e: Event)
    requires Kept(p)
    ensures Kept(Apply(p, e))
  {
    match e {
      case Delay(now, delay, task) => KeptByDelay(p, now, delay, task);
      case Work(now) => KeptByWork(p, now);
      case _ =>
    }
  }

  /** In every reachable state the pending and the running delayed tasks are different
      ones, every pending one waits in the time queue, and the counter counts the queue. */
  lemma {:induction false} AlwaysKept(log: seq<Event>)
    requires Run(log)
    ensures Kept(Replay(log))
  {
    if log != [] {
      AlwaysKept(log[..|log| - 1]);
      KeptByStep(Replay(log[..|log| - 1]), log[|log| - 1]);
    }
  }

  // ---------- pending, started or cancelled ----------

  lemma FateByStep(p: Pool, e: Event, id: nat)
    requires Kept(p)
    ensures var p' := Apply(p, e);
            One(id in p.latest) + One(Issues(p, e, id)) ==
            One(id in p'.latest) + One(Starts(p, e, id)) + One(Cancels(p, e, id))
  {
    if e.Work? && p.timeQueue != [] {
      assert p.timeQueue[0] in p.timeQueue;
    }
  }

  /** Every issued id is exactly one of pending, started and cancelled, once. */
  lemma {:induction false} OneFate(log: seq<Event>, id: nat)
    requires Run(log)
    ensures One(id in Replay(log).latest) + Started(log, id) + CancelledIn(log, id) ==
            One(1 <= id <= Replay(log).lastTaskId)
  {
    if log != [] {
      var before, e := log[..|log| - 1], log[|log| - 1];
      OneFate(before, id);
      AlwaysKept(before);
      FateByStep(Replay(before), e, id);
    }
  }

  // ---------- earlier and later in a run ----------

  lemma {:induction false} PrefixRuns(log: seq<Event>, n: nat)
    requires Run(log) && n <= |log|
    ensures Run(log[..n])
    ensures n < |log| ==> EnabledAfter(log[..n], log[n])
    decreases |log| - n
  {
    if n == |log| {
      assert log[..n] == log;
    } else {
      PrefixRuns(log, n + 1);
      assert log[..n + 1][..n] == log[..n];
    }
  }

  lemma {:induction false} CountsGrow(log: seq<Event>, n: nat, id: nat)
    requires n <= |log|
    ensures Started(log[..n], id) <= Started(log, id) && CancelledIn(log[..n], id) <= CancelledIn(log, id)
    decreases |log|
  {
    if n == |log| {
      assert log[..n] == log;
    } else {
      assert log[..|log| - 1][..n] == log[..n];
      CountsGrow(log[..|log| - 1], n, id);
    }
  }

  lemma CountsAt(log: seq<Event>, n: nat, id: nat)
    requires n < |log|
    ensures Started(log[..n + 1], id) == Started(log[..n], id) + One(Starts(Replay(log[..n]), log[n], id))
    ensures CancelledIn(log[..n + 1], id) == CancelledIn(log[..n], id) + One(Cancels(Replay(log[..n]), log[n], id))
    ensures Replay(log[..n + 1]) == Apply(Replay(log[..n]), log[n])
  {
    assert log[..n + 1][..n] == log[..n];
  }

  /** A task with a fate already sealed is not started. */
  lemma SealedNotStarted(log: seq<Event>, n: nat, id: nat)
    requires Run(log) && n < |log| && Started(log[..n], id) + CancelledIn(log[..n], id) >= 1
    ensures !Starts(Replay(log[..n]), log[n], id)
  {
    CountsAt(log, n, id);
    PrefixRuns(log, n + 1);
    OneFate(log[..n + 1], id);
  }

  lemma SealedLater(log: seq<Event>, m: nat, n: nat, id: nat)
    requires m <= n <= |log|
    ensures Started(log[..m], id) + CancelledIn(log[..m], id) <= Started(log[..n], id) + CancelledIn(log[..n], id)
  {
    assert log[..n][..m] == log[..m];
    CountsGrow(log[..n], m, id);
  }

  lemma SealedBy(log: seq<Event>, m: nat, id: nat)
    requires m < |log| && (Starts(Replay(log[..m]), log[m], id) || Cancels(Replay(log[..m]), log[m], id))
    ensures Started(log[..m + 1], id) + CancelledIn(log[..m + 1], id) >= 1
  {
    CountsAt(log, m, id);
  }

  /** A delayed task is started at most once. */
  lemma StartedOnce(log: seq<Event>, m: nat, n: nat, id: nat)
    requires Run(log) && m < n < |log| && Starts(Replay(log[..m]), log[m], id)
    ensures !Starts(Replay(log[..n]), log[n], id)
  {
    SealedBy(log, m, id);
    SealedLater(log, m + 1, n, id);
    SealedNotStarted(log, n, id);
  }

  lemma SealedNotCancelled(log: seq<Event>, n: nat, id: nat)
    requires Run(log) && n < |log| && Started(log[..n], id) + CancelledIn(log[..n], id) >= 1
    ensures !Cancels(Replay(log[..n]), log[n], id)
  {
    CountsAt(log, n, id);
    PrefixRuns(log, n + 1);
    OneFate(log[..n + 1], id);
  }

  /** A task that CancelTask reports as cancelled is never started, before or after. */
  lemma CancelledNeverStarts(log: seq<Event>, m: nat, n: nat, id: nat)
    requires Run(log) && m < |log| && n < |log| && Cancels(Replay(log[..m]), log[m], id)
    ensures !Starts(Replay(log[..n]), log[n], id)
  {
    if m < n {
      SealedBy(log, m, id);
      SealedLater(log, m + 1, n, id);
      SealedNotStarted(log, n, id);
    } else if n < m {
      StartedNotCancelled(log, n, m, id);
    }
  }

  lemma StartedNotCancelled(log: seq<Event>, m: nat, n: nat, id: nat)
    requires Run(log) && m < n < |log|
    ensures Starts(Replay(log[..m]), log[m], id) ==> !Cancels(Replay(log[..n]), log[n], id)
  {
    if Starts(Replay(log[..m]), log[m], id) {
      SealedBy(log, m, id);
      SealedLater(log, m + 1, n, id);
      SealedNotCancelled(log, n, id);
    }
  }

  lemma SettledIsSealed(log: seq<Event>, m: nat, id: nat)
    requires Run(log) && m < |log| && 1 <= id <= Replay(log[..m]).lastTaskId
    requires Settles(Replay(log[..m]), log[m], id)
    ensures Started(log[..m + 1], id) + CancelledIn(log[..m + 1], id) >= 1
    ensures !RunningAt(log, m + 1, id)
  {
    PrefixRuns(log, m);
    OneFate(log[..m], id);
    CountsAt(log, m, id);
  }

  /** Once CancelTask on an issued id returns that it is not running, its task can
      never start ... */
  lemma SettledNeverStarts(log: seq<Event>, m: nat, n: nat, id: nat)
    requires Run(log) && m < n < |log| && 1 <= id <= Replay(log[..m]).lastTaskId
    requires Settles(Replay(log[..m]), log[m], id)
    ensures !Starts(Replay(log[..n]), log[n], id)
  {
    SettledIsSealed(log, m, id);
    SealedLater(log, m + 1, n, id);
    SealedNotStarted(log, n, id);
  }

  ghost predicate RunningAt(log: seq<Event>, n: nat, id: nat) {
    n <= |log| && id in Replay(log[..n]).running
  }

  lemma {:induction false} NotStartedNeverRuns(log: seq<Event>, m: nat, n: nat, id: nat)
    requires m <= n <= |log| && !RunningAt(log, m, id)
    requires forall k :: m <= k < n ==> !Starts(Replay(log[..k]), log[k], id)
    ensures !RunningAt(log, n, id)
    decreases n
  {
    if m < n {
      NotStartedNeverRuns(log, m, n - 1, id);
      NotStartedNotRunning(log, n - 1, id);
    }
  }

  /** ... and is never seen running. */
  lemma SettledNeverRuns(log: seq<Event>, m: nat, n: nat, id: nat)
    requires Run(log) && m < n <= |log| && 1 <= id <= Replay(log[..m]).lastTaskId
    requires Settles(Replay(log[..m]), log[m], id)
    ensures !RunningAt(log, n, id)
  {
    SettledIsSealed(log, m, id);
    forall k | m + 1 <= k < n ensures !Starts(Replay(log[..k]), log[k], id) {
      SettledNeverStarts(log, m, k, id);
    }
    NotStartedNeverRuns(log, m + 1, n, id);
  }

  lemma NotStartedNotRunning(log: seq<Event>, n: nat, id: nat)
    requires n < |log| && !RunningAt(log, n, id) && !Starts(Replay(log[..n]), log[n], id)
    ensures !RunningAt(log, n + 1, id)
  {
    CountsAt(log, n, id);
  }

  function FinishedIn(log: seq<Event>, id: nat): nat {
    if log == [] then 0
    else FinishedIn(log[..|log| - 1], id) + One(log[|log| - 1] == Finish(id))
  }

  lemma RunningByStep(p: Pool, e: Event, id: nat)
    requires Kept(p) && (e.Finish? ==> e.id in p.running)
    ensures One(id in p.running) + One(Starts(p, e, id)) == One(id in Apply(p, e).running) + One(e == Finish(id))
  {
    if e.Work? && p.timeQueue != [] {
      assert p.timeQueue[0] in p.timeQueue;
    }
  }

  /** A delayed task is running from its start until it finishes. */
  lemma {:induction false} RunningMeans(log: seq<Event>, id: nat)
    requires Run(log)
    ensures Started(log, id) == FinishedIn(log, id) + One(id in Replay(log).running)
  {
    if log != [] {
      var before := log[..|log| - 1];
      RunningMeans(before, id);
      AlwaysKept(before);
      RunningByStep(Replay(before), log[|log| - 1], id);
    }
  }

  /** What CancelTask answers: it cancels exactly the ids issued and neither started nor
      cancelled before; it reports as running, or waits for, exactly those started and not
      finished; to any other id it answers that there is no such task. */
  lemma CancelAnswers(log: seq<Event>, id: nat, nonBlock: bool)
    requires Run(log)
    ensures var r := CancelStep(Replay(log), id, nonBlock).1;
            && (r.Cancelled? <==> 1 <= id <= Replay(log).lastTaskId && Started(log, id) == 0 && CancelledIn(log, id) == 0)
            && (r.StillRunning? || r.Retry? <==> Started(log, id) > FinishedIn(log, id))
            && (r.StillRunning? ==> nonBlock) && (r.Retry? ==> !nonBlock)
  {
    OneFate(log, id);
    RunningMeans(log, id);
    AlwaysKept(log);
  }

  /** A delayed task that is pending and due is started by the turn that finds it first; any
      turn before that takes one out of its way, and only those due before it are there. */
  lemma DueTurn(log: seq<Event>, now: int, i: nat)
    requires Run(log) && !Replay(log).stop
    requires var p := Replay(log); i < |p.timeQueue| && p.timeQueue[i].exeTime <= now && p.timeQueue[i].id in p.latest
    ensures var p, e := Replay(log), Work(now);
            var x := p.timeQueue[i];
            && Apply(p, e).timeQueue == p.timeQueue[1..]
            && (i == 0 ==> Starts(p, e, x.id))
            && (i > 0 ==> x.id in Apply(p, e).latest && !Starts(p, e, x.id) && Sooner(p.timeQueue[0], x))
  {
    var p := Replay(log);
    AlwaysKept(log);
    assert p.timeQueue[i] in p.timeQueue && p.timeQueue[0] in p.timeQueue;
    assert p.latest[p.timeQueue[i].id] == p.timeQueue[i];
    if i > 0 { assert Sooner(p.timeQueue[0], p.timeQueue[i]); }
  }

  // ---------- not before its time ----------

  /** The item was issued in the log, with this execution time. */
  ghost predicate IssuedAs(log: seq<Event>, x: Item) {
    exists k :: 0 <= k < |log| && IssuesItem(log, k, x)
  }

  ghost predicate IssuesItem(log: seq<Event>, k: nat, x: Item)
    requires k < |log|
  {
    && Issues(Replay(log[..k]), log[k], x.id)
    && x.exeTime == log[k].now + log[k].delay * 1000 && x.task == log[k].task
  }

  lemma IssuedStays(log: seq<Event>, x: Item)
    requires log != [] && IssuedAs(log[..|log| - 1], x)
    ensures IssuedAs(log, x)
  {
    var before := log[..|log| - 1];
    var k :| 0 <= k < |before| && IssuesItem(before, k, x);
    assert before[..k] == log[..k];
    assert IssuesItem(log, k, x);
  }

  lemma {:induction false} QueuedWasIssued(log: seq<Event>, x: Item)
    requires Run(log) && x in Replay(log).timeQueue
    ensures IssuedAs(log, x)
  {
    var before, e := log[..|log| - 1], log[|log| - 1];
    var p := Replay(before);
    AlwaysKept(before);
    if x in p.timeQueue {
      QueuedWasIssued(before, x);
      IssuedStays(log, x);
    } else {
      NewlyQueued(p, e, x);
      assert IssuesItem(log, |log| - 1, x);
    }
  }

  lemma NewlyQueued(p: Pool, e: Event, x: Item)
    requires Kept(p) && x !in p.timeQueue && x in Apply(p, e).timeQueue
    ensures Issues(p, e, x.id) && x.exeTime == e.now + e.delay * 1000 && x.task == e.task
  {
    if e.Delay? {
      PushOrdered(p.timeQueue, Item(p.lastTaskId + 1, e.now + e.delay * 1000, e.task));
    }
  }

  /** The item a worker starts is the first of the queue. */
  lemma StartsHead(log: seq<Event>, n: nat, id: nat) returns (x: Item)
    requires Run(log) && n < |log| && Starts(Replay(log[..n]), log[n], id)
    ensures x == WorkStep(Replay(log[..n]), log[n].now).1.item && x.id == id && x.exeTime <= log[n].now
    ensures x in Replay(log[..n]).timeQueue
    ensures forall y :: y in Replay(log[..n]).timeQueue && y.id != id ==> Sooner(x, y)
  {
    PrefixRuns(log, n);
    AlwaysKept(log[..n]);
    x := Replay(log[..n]).timeQueue[0];
  }

  /** A delayed task is started with the closure it was issued with, no earlier than its
      delay after the time it was issued ... */
  lemma NeverEarly(log: seq<Event>, n: nat, id: nat) returns (k: nat)
    requires Run(log) && n < |log| && Starts(Replay(log[..n]), log[n], id)
    ensures k < n && Issues(Replay(log[..k]), log[k], id) && log[k].now + log[k].delay * 1000 <= log[n].now
    ensures WorkStep(Replay(log[..n]), log[n].now).1.item.task == log[k].task
  {
    var x := StartsHead(log, n, id);
    PrefixRuns(log, n);
    QueuedWasIssued(log[..n], x);
    k :| 0 <= k < n && IssuesItem(log[..n], k, x);
    assert log[..n][..k] == log[..k];
  }

  /** ... and before every task due later. */
  lemma EarliestFirst(log: seq<Event>, n: nat, id: nat)
    requires Run(log) && n < |log| && Starts(Replay(log[..n]), log[n], id)
    ensures var p := Replay(log[..n]);
            forall x :: x in p.timeQueue && x.id != id ==> Sooner(WorkStep(p, log[n].now).1.item, x)
  {
    var x := StartsHead(log, n, id);
  }

  // ---------- normal tasks ----------

  function Tasks(q: seq<Item>): seq<nat> {
    seq(|q|, i requires 0 <= i < |q| => q[i].task)
  }

  function AddedTasks(log: seq<Event>): seq<nat> {
    if log == [] then []
    else AddedTasks(log[..|log| - 1]) + Adds(log[|log| - 1])
  }

  function RunTasks(log: seq<Event>): seq<nat> {
    if log == [] then []
    else RunTasks(log[..|log| - 1]) + NormalRun(Replay(log[..|log| - 1]), log[|log| - 1])
  }

  function NormalRun(p: Pool, e: Event): seq<nat> {
    if e.Work? && WorkStep(p, e.now).1.RunNormal? then [WorkStep(p, e.now).1.task] else []
  }

  lemma TasksConcat(a: seq<Item>, b: seq<Item>)
    ensures Tasks(a + b) == Tasks(a) + Tasks(b)
  {
  }

  function Adds(e: Event): seq<nat> {
    if e.Add? then [e.task] else []
  }

  lemma QueueAdds(p: Pool, e: Event)
    requires e.Add?
    ensures var q, q' := Tasks(p.queue), Tasks(Apply(p, e).queue);
            && multiset(q') == multiset(q) + multiset{e.task}
            && (!e.front ==> q' == q + [e.task])
  {
    var item := Item(0, e.now, e.task);
    assert Tasks([item]) == [e.task];
    TasksConcat([item], p.queue);
    TasksConcat(p.queue, [item]);
  }

  lemma QueueRuns(p: Pool, e: Event)
    requires !e.Add?
    ensures Tasks(p.queue) == NormalRun(p, e) + Tasks(Apply(p, e).queue)
  {
    if NormalRun(p, e) != [] {
      assert p.queue == [p.queue[0]] + p.queue[1..];
      TasksConcat([p.queue[0]], p.queue[1..]);
    }
  }

  lemma JoinCounts(added: seq<nat>, run: seq<nat>, q: seq<nat>, adds: seq<nat>, now: seq<nat>, q': seq<nat>)
    requires multiset(added) == multiset(run) + multiset(q)
    requires multiset(q) + multiset(adds) == multiset(now) + multiset(q')
    ensures multiset(added + adds) == multiset(run + now) + multiset(q')
  {
    var a, b, c, d, e, f := multiset(added), multiset(run), multiset(q), multiset(adds), multiset(now), multiset(q');
    forall x ensures (a + d)[x] == (b + e + f)[x] {
      assert a[x] == b[x] + c[x];
      assert (c + d)[x] == (e + f)[x];
    }
  }

  lemma JoinTasks(added: seq<nat>, run: seq<nat>, q: seq<nat>, adds: seq<nat>, now: seq<nat>, q': seq<nat>)
    requires added == run + q && q + adds == now + q'
    ensures added + adds == (run + now) + q'
  {
    assert (run + q) + adds == run + (q + adds);
    assert (run + now) + q' == run + (now + q');
  }

  lemma QueueStep(p: Pool, e: Event)
    ensures var q, q' := Tasks(p.queue), Tasks(Apply(p, e).queue);
            && multiset(q) + multiset(Adds(e)) == multiset(NormalRun(p, e)) + multiset(q')
            && (!(e.Add? && e.front) ==> q + Adds(e) == NormalRun(p, e) + q')
  {
    var q, q' := Tasks(p.queue), Tasks(Apply(p, e).queue);
    if e.Add? {
      QueueAdds(p, e);
      assert [] + q' == q';
    } else {
      QueueRuns(p, e);
      assert q + [] == q;
      assert multiset(NormalRun(p, e) + q') == multiset(NormalRun(p, e)) + multiset(q');
    }
  }

  /** Every task added is run once or still queued. */
  lemma {:induction false} TasksConserved(log: seq<Event>)
    ensures multiset(AddedTasks(log)) == multiset(RunTasks(log)) + multiset(Tasks(Replay(log).queue))
  {
    if log != [] {
      var before, e := log[..|log| - 1], log[|log| - 1];
      var p := Replay(before);
      TasksConserved(before);
      QueueStep(p, e);
      JoinCounts(AddedTasks(before), RunTasks(before), Tasks(p.queue), Adds(e), NormalRun(p, e), Tasks(Apply(p, e).queue));
    }
  }

  /** Without priority tasks, tasks are taken in the order they were added. */
  lemma {:induction false} TasksInOrder(log: seq<Event>)
    requires forall i :: 0 <= i < |log| && log[i].Add? ==> !log[i].front
    ensures AddedTasks(log) == RunTasks(log) + Tasks(Replay(log).queue)
  {
    if log != [] {
      var before, e := log[..|log| - 1], log[|log| - 1];
      var p := Replay(before);
      TasksInOrder(before);
      QueueStep(p, e);
      JoinTasks(AddedTasks(before), RunTasks(before), Tasks(p.queue), Adds(e), NormalRun(p, e), Tasks(Apply(p, e).queue));
    }
  }

  // ---------- which normal task comes next ----------

  /** The events that added the normal tasks still waiting. */
  ghost function Line(log: seq<Event>): seq<nat> {
    if log == [] then []
    else
      var n := |log| - 1;
      var before := Line(log[..n]);
      if log[n].Add? then (if log[n].front then [n] + before else before + [n])
      else if NormalRun(Replay(log[..n]), log[n]) != [] && before != [] then before[1..]
      else before
  }

  ghost predicate AllAdds(log: seq<Event>, line: seq<nat>) {
    forall n :: n in line ==> n < |log| && log[n].Add?
  }

  ghost function TasksOf(log: seq<Event>, line: seq<nat>): seq<nat>
    requires AllAdds(log, line)
  {
    seq(|line|, i requires 0 <= i < |line| => assert line[i] in line; log[line[i]].task)
  }

  lemma TasksOfPrefix(log: seq<Event>, n: nat, line: seq<nat>)
    requires n <= |log| && AllAdds(log[..n], line)
    ensures AllAdds(log, line) && TasksOf(log, line) == TasksOf(log[..n], line)
  {
    forall k | k in line ensures k < |log| && log[k].Add? {
      assert log[..n][k] == log[k];
    }
    forall i | 0 <= i < |line| ensures TasksOf(log, line)[i] == TasksOf(log[..n], line)[i] {
      assert line[i] in line;
    }
  }

  lemma LineAdds(log: seq<Event>, n: nat, line: seq<nat>)
    requires n < |log| && log[n].Add? && AllAdds(log, line)
    ensures AllAdds(log, [n] + line) && TasksOf(log, [n] + line) == [log[n].task] + TasksOf(log, line)
    ensures AllAdds(log, line + [n]) && TasksOf(log, line + [n]) == TasksOf(log, line) + [log[n].task]
  {
  }

  lemma LineTakes(log: seq<Event>, line: seq<nat>)
    requires line != [] && AllAdds(log, line)
    ensures AllAdds(log, line[1..]) && TasksOf(log, line[1..]) == TasksOf(log, line)[1..]
  {
    forall n | n in line[1..] ensures n in line {
      var i :| 0 <= i < |line[1..]| && line[1..][i] == n;
      assert line[i + 1] == n;
    }
  }

  lemma QueueGrows(p: Pool, e: Event)
    requires e.Add?
    ensures Tasks(Apply(p, e).queue) == if e.front then [e.task] + Tasks(p.queue) else Tasks(p.queue) + [e.task]
  {
    var item := Item(0, e.now, e.task);
    assert Tasks([item]) == [e.task];
    TasksConcat([item], p.queue);
    TasksConcat(p.queue, [item]);
  }

  /** The pool's queue is that line. */
  lemma {:induction false} QueueIsLine(log: seq<Event>)
    ensures AllAdds(log, Line(log)) && Tasks(Replay(log).queue) == TasksOf(log, Line(log))
  {
    if log != [] {
      var n := |log| - 1;
      var before, p, e := Line(log[..n]), Replay(log[..n]), log[n];
      QueueIsLine(log[..n]);
      TasksOfPrefix(log, n, before);
      if e.Add? {
        QueueGrows(p, e);
        LineAdds(log, n, before);
      } else {
        QueueRuns(p, e);
        if NormalRun(p, e) != [] {
          assert |Tasks(p.queue)| == |TasksOf(log, before)| == |before|;
          LineTakes(log, before);
        }
      }
    }
  }

  /** Of two waiting tasks, the one added later comes first if it is a priority task, and the
      one added earlier otherwise. */
  predicate ComesFirst(log: seq<Event>, n: nat, m: nat)
    requires n < |log| && m < |log| && log[n].Add? && log[m].Add?
  {
    if n > m then log[n].front else !log[m].front
  }

  ghost predicate LineOrdered(log: seq<Event>, line: seq<nat>) {
    && AllAdds(log, line)
    && forall i, j :: 0 <= i < j < |line| ==>
         line[i] in line && line[j] in line && line[i] != line[j] && ComesFirst(log, line[i], line[j])
  }

  lemma OrderedPrefix(log: seq<Event>, n: nat, line: seq<nat>)
    requires n <= |log| && LineOrdered(log[..n], line)
    ensures LineOrdered(log, line) && forall i :: 0 <= i < |line| ==> line[i] < n
  {
    TasksOfPrefix(log, n, line);
    forall i, j | 0 <= i < j < |line|
      ensures line[i] in line && line[j] in line && line[i] != line[j] && ComesFirst(log, line[i], line[j])
    {
      assert ComesFirst(log[..n], line[i], line[j]);
    }
    forall i | 0 <= i < |line| ensures line[i] < n { assert line[i] in line; }
  }

  lemma OrderedFront(log: seq<Event>, n: nat, line: seq<nat>)
    requires n < |log| && log[n].Add? && LineOrdered(log, line) && forall i :: 0 <= i < |line| ==> line[i] < n
    requires log[n].front
    ensures LineOrdered(log, [n] + line)
  {
    var all := [n] + line;
    assert AllAdds(log, all);
    forall i, j | 0 <= i < j < |all|
      ensures all[i] in all && all[j] in all && all[i] != all[j] && ComesFirst(log, all[i], all[j])
    {
      assert all[j] == line[j - 1];
      if i > 0 { assert all[i] == line[i - 1]; }
    }
  }

  lemma OrderedBack(log: seq<Event>, n: nat, line: seq<nat>)
    requires n < |log| && log[n].Add? && LineOrdered(log, line) && forall i :: 0 <= i < |line| ==> line[i] < n
    requires !log[n].front
    ensures LineOrdered(log, line + [n])
  {
    var all := line + [n];
    assert AllAdds(log, all);
    forall i, j | 0 <= i < j < |all|
      ensures all[i] in all && all[j] in all && all[i] != all[j] && ComesFirst(log, all[i], all[j])
    {
      assert all[i] == line[i];
      if j < |line| { assert all[j] == line[j]; }
    }
  }

  lemma OrderedTake(log: seq<Event>, line: seq<nat>)
    requires LineOrdered(log, line) && line != []
    ensures LineOrdered(log, line[1..])
  {
    LineTakes(log, line);
  }

  lemma {:induction false} LineIsOrdered(log: seq<Event>)
    ensures LineOrdered(log, Line(log))
  {
    if log != [] {
      var n := |log| - 1;
      var before := Line(log[..n]);
      LineIsOrdered(log[..n]);
      OrderedPrefix(log, n, before);
      if log[n].Add? {
        if log[n].front { OrderedFront(log, n, before); } else { OrderedBack(log, n, before); }
      } else if before != [] {
        OrderedTake(log, before);
      }
    }
  }

  /** A worker that takes a normal task takes one that is waiting, and among those the one
      that comes first: a priority task before all that were waiting when it was added, plain
      tasks in the order they were added. */
  lemma TakesFirst(log: seq<Event>, k: nat) returns (n: nat)
    requires k < |log| && NormalRun(Replay(log[..k]), log[k]) != []
    ensures n < k && log[n].Add? && n in Line(log[..k]) && NormalRun(Replay(log[..k]), log[k]) == [log[n].task]
    ensures forall m :: m in Line(log[..k]) && m != n ==> m < k && log[m].Add? && ComesFirst(log, n, m)
    ensures Line(log[..k]) == [n] + Line(log[..k + 1])
  {
    var before := log[..k];
    var line := Line(before);
    QueueIsLine(before);
    LineIsOrdered(before);
    assert |Tasks(Replay(before).queue)| == |line|;
    n := line[0];
    assert n in line && Tasks(Replay(before).queue)[0] == log[n].task;
    LineAfter(log, k);
    FirstOfLine(log, k, line);
  }

  /** Taking a task takes the first of the line. */
  lemma LineAfter(log: seq<Event>, k: nat)
    requires k < |log| && NormalRun(Replay(log[..k]), log[k]) != [] && Line(log[..k]) != []
    ensures Line(log[..k + 1]) == Line(log[..k])[1..]
  {
    assert log[..k + 1][..k] == log[..k];
  }

  lemma FirstOfLine(log: seq<Event>, k: nat, line: seq<nat>)
    requires k <= |log| && LineOrdered(log[..k], line) && line != []
    ensures forall m :: m in line && m != line[0] ==>
              m < k && line[0] < k && log[m].Add? && log[line[0]].Add? && ComesFirst(log, line[0], m)
  {
    assert line[0] in line;
    forall m | m in line && m != line[0]
      ensures m < k && log[m].Add? && log[line[0]].Add? && ComesFirst(log, line[0], m)
    {
      var j :| 0 <= j < |line| && line[j] == m;
      assert ComesFirst(log[..k], line[0], line[j]);
    }
  }

  /** Nothing keeps a worker from the line: unless the pool is stopped or a delayed task is
      due, a turn takes a normal task if one waits. */
  lemma TakesIfAny(log: seq<Event>, now: int)
    requires Run(log) && !Replay(log).stop && (forall x :: x in Replay(log).timeQueue ==> x.exeTime > now)
    ensures NormalRun(Replay(log), Work(now)) != [] <==> Line(log) != []
  {
    QueueIsLine(log);
    var p := Replay(log);
    assert |Tasks(p.queue)| == |Line(log)|;
    if p.timeQueue != [] { assert p.timeQueue[0] in p.timeQueue; }
  }

  // ---------- the threads ----------

  lemma WorkTakesOne(p: Pool, e: Event, busy: int, ended: nat)
    requires Kept(p) && e.Work?
    ensures |Apply(p, e).running| + BusyNext(p, busy, e) + EndedNext(p, ended, e) <= |p.running| + busy + ended + 1
  {
    if p.timeQueue != [] {
      assert p.timeQueue[0] in p.timeQueue;
    }
  }

  lemma ThreadsStep(p: Pool, e: Event, busy: int, ended: nat)
    requires Kept(p) && Enabled(p, busy, ended, e) && busy >= 0 && |p.running| + busy + ended <= p.threads
    ensures BusyNext(p, busy, e) >= 0
    ensures |Apply(p, e).running| + BusyNext(p, busy, e) + EndedNext(p, ended, e) <= Apply(p, e).threads
  {
    if e.Work? { WorkTakesOne(p, e, busy, ended); }
  }

  /** At any time each thread runs one task, has ended, or has nothing to do: no more tasks
      run at once than there are threads. */
  lemma {:induction false} ThreadsSuffice(log: seq<Event>)
    requires Run(log)
    ensures Busy(log) >= 0 && |Replay(log).running| + Busy(log) + Ended(log) <= Replay(log).threads
  {
    if log != [] {
      var before := log[..|log| - 1];
      ThreadsSuffice(before);
      AlwaysKept(before);
      ThreadsStep(Replay(before), log[|log| - 1], Busy(before), Ended(before));
    }
  }

  lemma JoinEmpties(p: Pool, busy: int, ended: nat)
    requires Enabled(p, busy, ended, Join) && busy >= 0 && |p.running| + busy + ended <= p.threads
    ensures Apply(p, Join).running == {} && BusyNext(p, busy, Join) == 0
  {
  }

  lemma BusyAt(log: seq<Event>, n: nat)
    requires n < |log|
    ensures Busy(log[..n + 1]) == BusyNext(Replay(log[..n]), Busy(log[..n]), log[n])
  {
    assert log[..n + 1][..n] == log[..n];
  }

  /** When Stop is done waiting, no task runs. */
  lemma StopWaitsForAll(log: seq<Event>, n: nat)
    requires Run(log) && n < |log| && log[n].Join?
    ensures Replay(log[..n + 1]).running == {} && Busy(log[..n + 1]) == 0
  {
    PrefixRuns(log, n);
    ThreadsSuffice(log[..n]);
    CountsAt(log, n, 0);
    BusyAt(log, n);
    JoinEmpties(Replay(log[..n]), Busy(log[..n]), Ended(log[..n]));
  }

  /** Start takes effect. */
  predicate Restarts(p: Pool, e: Event) {
    e.Start? && p.threads == 0
  }

  lemma StoppedStep(p: Pool, e: Event, id: nat)
    requires p.stop
    ensures !Starts(p, e, id) && NormalRun(p, e) == []
    ensures !Restarts(p, e) ==> Apply(p, e).stop
  {
  }

  lemma AppliesAt(log: seq<Event>, n: nat)
    requires n < |log|
    ensures Replay(log[..n + 1]) == Apply(Replay(log[..n]), log[n])
  {
    CountsAt(log, n, 0);
  }

  lemma JoinThenStart(p: Pool, threadsNum: nat)
    ensures var q := Apply(p, Join);
            && Restarts(q, Start(threadsNum))
            && !Apply(q, Start(threadsNum)).stop && Apply(q, Start(threadsNum)).threads == threadsNum
  {
  }

  /** Start takes effect right after the threads have been joined: the pool works again. */
  lemma RestartWorks(log: seq<Event>, n: nat)
    requires n + 1 < |log| && log[n].Join? && log[n + 1].Start?
    ensures Restarts(Replay(log[..n + 1]), log[n + 1])
    ensures !Replay(log[..n + 2]).stop && Replay(log[..n + 2]).threads == log[n + 1].threadsNum
  {
    AppliesAt(log, n);
    AppliesAt(log, n + 1);
    JoinThenStart(Replay(log[..n]), log[n + 1].threadsNum);
  }

  /** Once the pool is stopped, no task is started until it is started again ... */
  lemma {:induction false} StoppedStartsNothing(log: seq<Event>, m: nat, n: nat, id: nat)
    requires m < n <= |log| && log[m].Stop?
    requires forall k :: m < k < n ==> !Restarts(Replay(log[..k]), log[k])
    ensures Replay(log[..n]).stop
    ensures n < |log| ==> !Starts(Replay(log[..n]), log[n], id) && NormalRun(Replay(log[..n]), log[n]) == []
    decreases n
  {
    var k: nat := n - 1;
    CountsAt(log, k, id);
    if m < k {
      StoppedStartsNothing(log, m, k, id);
      StoppedStep(Replay(log[..k]), log[k], id);
    }
    if n < |log| { StoppedStep(Replay(log[..n]), log[n], id); }
  }

  lemma ThreadsStay(p: Pool, e: Event)
    requires p.threads != 0 && !e.Join?
    ensures Apply(p, e).threads != 0
  {
  }

  /** ... which takes that all of its threads have ended and been forgotten. */
  lemma {:induction false} RestartAfterJoin(log: seq<Event>, m: nat, n: nat) returns (k: nat)
    requires m < n < |log| && Replay(log[..m]).threads != 0 && Restarts(Replay(log[..n]), log[n])
    ensures m <= k < n && log[k].Join?
    decreases n - m
  {
    k := m;
    if !log[m].Join? {
      CountsAt(log, m, 0);
      ThreadsStay(Replay(log[..m]), log[m]);
      k := RestartAfterJoin(log, m + 1, n);
    }
  }
}
